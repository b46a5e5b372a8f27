/** The store of tree nodes: reading at any root ever produced, and writing a key, which yields a new root. While a
    batch is applied new nodes wait in memory, in front of the disk. Nothing is asked of the hash: a write either
    does what it should, or it ends with two different nodes that have the same hash. The program does not notice
    such a collision; here it is where an operation stops. */
module NodeStores {
  import opened Collections
  import opened NodeTree
  import opened TreeMutation

  datatype Stored<+T> = Done(value: T) | Clash(first: Node, second: Node) {
    predicate IsFailure() {
      Clash?
    }

    function PropagateFailure<U>(): Stored<U>
      requires Clash?
    {
      Clash(first, second)
    }

    function Extract(): T
      requires Done?
    {
      value
    }
  }

  predicate Collide(hash: Node -> Id, a: Node, b: Node) {
    a != b && hash(a) == hash(b)
  }

  /** Every child is there as well. */
  ghost predicate Closed(nodes: Nodes) {
    forall id, c :: id in nodes && nodes[id].Internal? && c in nodes[id].children ==> c in nodes
  }

  /** `nodes` is what is seen through the waiting nodes in front of the disk; each node is under its hash. */
  ghost predicate Layered(hash: Node -> Id, disk: Nodes, pending: Nodes, nodes: Nodes) {
    && Extends(disk, nodes) && Extends(pending, nodes) && nodes.Keys == disk.Keys + pending.Keys
    && (forall id <- nodes :: hash(nodes[id]) == id)
    && Closed(disk) && Closed(nodes)
  }

  ghost predicate HasChildren(nodes: Nodes, node: Node) {
    node.Internal? ==> forall c <- node.children :: c in nodes
  }

  lemma StoredInFront(hash: Node -> Id, disk: Nodes, pending: Nodes, nodes: Nodes, node: Node, pending': Nodes)
    requires Layered(hash, disk, pending, nodes) && HasChildren(nodes, node) && (hash(node) in nodes ==> nodes[hash(node)] == node)
    requires pending' == if hash(node) in pending then pending else pending[hash(node) := node]
    ensures Layered(hash, disk, pending', nodes[hash(node) := node]) && Extends(nodes, nodes[hash(node) := node])
  {
    hide Closed, HasChildren;
    ClosedMore(nodes, hash(node), node);
  }

  lemma StoredOnDisk(hash: Node -> Id, disk: Nodes, nodes: Nodes, node: Node, disk': Nodes)
    requires Layered(hash, disk, map[], nodes) && HasChildren(nodes, node) && (hash(node) in nodes ==> nodes[hash(node)] == node)
    requires disk' == if hash(node) in disk then disk else disk[hash(node) := node]
    ensures Layered(hash, disk', map[], nodes[hash(node) := node]) && Extends(nodes, nodes[hash(node) := node]) && Extends(disk, disk')
  {
    assert disk == nodes;
    ClosedMore(nodes, hash(node), node);
  }

  lemma ClosedMore(nodes: Nodes, id: Id, node: Node)
    requires Closed(nodes) && HasChildren(nodes, node) && (id in nodes ==> nodes[id] == node)
    ensures Closed(nodes[id := node])
  {
  }

  // ---- leaves --------------------------------------------------------------------------------------------

  lemma UpdatedLeafValid(node: Node, key: Key, value: Option<Value>, r: seq<Entry>, lo: Option<Key>, hi: Option<Key>)
    requires node.Leaf? && ValidLeaf(node, lo, hi) && InRange(key, lo, hi) && Updated(node.entries, key, value, r)
    ensures SortedEntries(r) && (forall e <- r :: InRange(e.key, lo, hi)) && |r| <= MAX_LEAF_ENTRIES + 1
  {
  }

  lemma LeafWrites(nodes: Nodes, id: Id, more: Nodes, id': Id, lo: Option<Key>, hi: Option<Key>, key: Key, value: Option<Value>)
    requires id in nodes && nodes[id].Leaf? && id' in more && more[id'].Leaf?
    requires Updated(nodes[id].entries, key, value, more[id'].entries)
    ensures Writes(nodes, id, more, One(id'), 0, lo, hi, key, value)
  {
  }

  /** A leaf that has grown too large, cut in half. */
  lemma HalfLeaves(r: seq<Entry>, lo: Option<Key>, hi: Option<Key>, next: Option<Id>, rightId: Id)
    requires SortedEntries(r) && (forall e <- r :: InRange(e.key, lo, hi)) && |r| == MAX_LEAF_ENTRIES + 1
    ensures var mid := |r| / 2;
            var separator := r[mid].key;
            && Above(separator, lo) && InRange(separator, lo, hi)
            && ValidLeaf(Leaf(r[..mid], Some(rightId)), lo, Some(separator))
            && ValidLeaf(Leaf(r[mid..], next), Some(separator), hi)
  {
    var mid := |r| / 2;
    assert r[0] in r && r[mid] in r;
    forall e <- r[mid..] ensures InRange(e.key, Some(r[mid].key), hi) {
      var i :| mid <= i < |r| && r[i] == e;
      assert e in r;
    }
    forall e <- r[..mid] ensures InRange(e.key, lo, Some(r[mid].key)) {
      assert e in r;
    }
  }

  lemma HalfLeavesWrite(
    nodes: Nodes, id: Id, more: Nodes, left: Id, right: Id, r: seq<Entry>, lo: Option<Key>, hi: Option<Key>, key: Key, value: Option<Value>)
    requires id in nodes && nodes[id].Leaf? && Updated(nodes[id].entries, key, value, r) && |r| > 1
    requires left in more && more[left].Leaf? && more[left].entries == r[..|r| / 2]
    requires right in more && more[right].Leaf? && more[right].entries == r[|r| / 2..]
    ensures Writes(nodes, id, more, Split(left, right, r[|r| / 2].key), 0, lo, hi, key, value)
  {
    hide Valid;
    var mid := |r| / 2;
    assert r == r[..mid] + r[mid..];
    forall k, v ensures Entry(k, Some(v)) in r <==> Entry(k, Some(v)) in if k < r[mid].key then r[..mid] else r[mid..] {
      HalfEntries(r, mid, Entry(k, Some(v)));
    }
  }

  lemma HalfEntries(r: seq<Entry>, mid: nat, e: Entry)
    requires SortedEntries(r) && mid < |r|
    ensures e in r <==> e in if e.key < r[mid].key then r[..mid] else r[mid..]
  {
    if e in r {
      var i :| 0 <= i < |r| && r[i] == e;
      assert i < mid ==> r[..mid][i] == e;
      assert i >= mid ==> r[mid..][i - mid] == e;
    }
  }

  // ---- inner nodes ----------------------------------------------------------------------------------------

  lemma InnerWrites(
    nodes: Nodes, id: Id, more: Nodes, id': Id, h: nat, lo: Option<Key>, hi: Option<Key>, key: Key, value: Option<Value>, middle: Nodes)
    requires id in nodes && nodes[id].Internal? && id' in more && more[id'].Internal? && Extends(middle, more) && h > 0
    requires ValidKeys(more[id'].keys, more[id'].children, lo, hi) && ValidChildren(middle, more[id'].keys, more[id'].children, h - 1, lo, hi)
    requires WritesBelow(nodes, nodes[id].keys, nodes[id].children, middle, more[id'].keys, more[id'].children, h - 1, lo, hi, key, value)
    ensures Writes(nodes, id, more, One(id'), h, lo, hi, key, value)
  {
    hide Valid, HoldsBelow;
    var keys, children := more[id'].keys, more[id'].children;
    forall k, v | InRange(k, lo, hi)
      ensures Holds(more, id', h, k, v) <==> After(Holds(nodes, id, h, k, v), key, value, k, v)
    {
      BelowFrame(middle, more, keys, children, h - 1, lo, hi, k, v);
    }
  }

  lemma BelowFrame(nodes: Nodes, more: Nodes, keys: seq<Key>, children: seq<Id>, h: nat, lo: Option<Key>, hi: Option<Key>, k: Key, v: Value)
    requires Extends(nodes, more) && ValidKeys(keys, children, lo, hi) && ValidChildren(nodes, keys, children, h, lo, hi)
    ensures HoldsBelow(more, keys, children, h, k, v) <==> HoldsBelow(nodes, keys, children, h, k, v)
  {
    hide Valid, Holds;
    forall j | 0 <= j < |children| ensures Holds(more, children[j], h, k, v) <==> Holds(nodes, children[j], h, k, v) {
      HoldsFrame(nodes, more, children[j], h, Low(keys, lo, j), High(keys, hi, j), k, v);
    }
  }

  lemma ChildrenFrame(nodes: Nodes, more: Nodes, keys: seq<Key>, children: seq<Id>, h: nat, lo: Option<Key>, hi: Option<Key>)
    requires Extends(nodes, more) && ValidChildren(nodes, keys, children, h, lo, hi)
    ensures ValidChildren(more, keys, children, h, lo, hi)
  {
    hide Valid;
    forall i | 0 <= i < |children| ensures Valid(more, children[i], h, Low(keys, lo, i), High(keys, hi, i)) {
      ValidFrame(nodes, more, children[i], h, Low(keys, lo, i), High(keys, hi, i));
    }
  }

  lemma HalvesWrite(
    nodes: Nodes, id: Id, more: Nodes, left: Id, right: Id, keys: seq<Key>, children: seq<Id>, mid: nat, h: nat,
    lo: Option<Key>, hi: Option<Key>, key: Key, value: Option<Value>, middle: Nodes)
    requires id in nodes && nodes[id].Internal? && Extends(middle, more) && h > 0 && mid < |keys|
    requires ValidKeys(keys, children, lo, hi) && ValidChildren(middle, keys, children, h - 1, lo, hi)
    requires WritesBelow(nodes, nodes[id].keys, nodes[id].children, middle, keys, children, h - 1, lo, hi, key, value)
    requires left in more && more[left] == Internal(keys[..mid], children[..mid + 1])
    requires right in more && more[right] == Internal(keys[mid + 1..], children[mid + 1..])
    ensures Writes(nodes, id, more, Split(left, right, keys[mid]), h, lo, hi, key, value)
  {
    hide Valid, HoldsBelow;
    forall k, v | InRange(k, lo, hi)
      ensures OutcomeHolds(more, Split(left, right, keys[mid]), h, k, v) <==> After(Holds(nodes, id, h, k, v), key, value, k, v)
    {
      BelowFrame(middle, more, keys, children, h - 1, lo, hi, k, v);
      HalvesHold(more, keys, children, h - 1, mid, k, v);
    }
  }

  class NodeStore {
    const hash: Node -> Id
    var disk: Nodes
    var pending: Nodes
    var batching: bool
    var opsSinceGc: nat
    ghost var nodes: Nodes

    ghost predicate Sound()
      reads this
    {
      Layered(hash, disk, pending, nodes) && (!batching ==> pending == map[])
    }

    constructor (hash: Node -> Id)
      ensures this.hash == hash && Sound() && !batching && disk == nodes == map[hash(Leaf([], None)) := Leaf([], None)]
    {
      this.hash := hash;
      disk, pending, batching, opsSinceGc := map[hash(Leaf([], None)) := Leaf([], None)], map[], false, 0;
      nodes := map[hash(Leaf([], None)) := Leaf([], None)];
    }

    function LoadNode(id: Id): (node: Node)
      requires Sound() && id in nodes
      reads this
      ensures node == nodes[id]
    {
      if id in pending then pending[id] else disk[id]
    }

    /** Storing a node again changes nothing, and within a batch nothing reaches the disk. */
    method StoreNode(node: Node) returns (r: Stored<Id>)
      requires Sound() && HasChildren(nodes, node)
      modifies this`disk, this`pending, this`nodes
      ensures r.Done? ==> Sound() && Extends(old(nodes), nodes) && Extends(old(disk), disk)
      ensures r.Done? ==> r.value == hash(node) && nodes == old(nodes)[r.value := node]
      ensures r.Clash? <==> hash(node) in old(nodes) && Collide(hash, old(nodes)[hash(node)], node)
      ensures r.Clash? ==> Collide(hash, r.first, r.second)
      ensures batching ==> disk == old(disk)
    {
      hide Closed, HasChildren;
      var id := hash(node);
      var seen := if id in pending then Some(pending[id]) else if id in disk then Some(disk[id]) else None;
      if batching {
        pending := if id in pending then pending else pending[id := node];
      } else {
        disk := if id in disk then disk else disk[id := node];
      }
      nodes := nodes[id := node];
      if seen.Some? && seen.value != node {
        return Clash(seen.value, node);
      }
      if batching {
        StoredInFront(hash, disk, old(pending), old(nodes), node, pending);
      } else {
        StoredOnDisk(hash, old(disk), old(nodes), node, disk);
      }
      return Done(id);
    }

    method MutateLeaf(id: Id, key: Key, value: Option<Value>, ghost lo: Option<Key>, ghost hi: Option<Key>) returns (r: Stored<Outcome>)
      requires Sound() && Valid(nodes, id, 0, lo, hi) && InRange(key, lo, hi)
      modifies this`disk, this`pending, this`nodes
      ensures r.Clash? ==> Collide(hash, r.first, r.second)
      ensures r.Done? ==> Sound() && Extends(old(nodes), nodes) && Extends(old(disk), disk)
      ensures r.Done? ==> OutcomeValid(nodes, r.value, 0, lo, hi)
      ensures r.Done? ==> Writes(old(nodes), id, nodes, r.value, 0, lo, hi, key, value)
      ensures batching ==> disk == old(disk)
    {
      hide Layered, Updated, ValidLeaf, SortedEntries, Writes;
      var leaf := LoadNode(id);
      LeafIsSorted(leaf, lo, hi);
      var entries, changed := UpdateLeaf(leaf.entries, key, value);
      UpdatedLeafValid(leaf, key, value, entries, lo, hi);
      if !changed {
        LeafWrites(nodes, id, nodes, id, lo, hi, key, value);
        return Done(One(id));
      }
      if |entries| <= MAX_LEAF_ENTRIES {
        ghost var before := nodes;
        var newId :- StoreNode(Leaf(entries, leaf.next));
        SmallLeafValid(nodes[newId], lo, hi);
        LeafWrites(before, id, nodes, newId, lo, hi, key, value);
        return Done(One(newId));
      }
      r := SplitLeaf(id, entries, leaf.next, key, value, lo, hi);
    }

    method SplitLeaf(
      ghost id: Id, entries: seq<Entry>, next: Option<Id>, ghost key: Key, ghost value: Option<Value>,
      ghost lo: Option<Key>, ghost hi: Option<Key>) returns (r: Stored<Outcome>)
      requires Sound() && id in nodes && nodes[id].Leaf? && Updated(nodes[id].entries, key, value, entries)
      requires SortedEntries(entries) && (forall e <- entries :: InRange(e.key, lo, hi)) && |entries| == MAX_LEAF_ENTRIES + 1
      modifies this`disk, this`pending, this`nodes
      ensures r.Clash? ==> Collide(hash, r.first, r.second)
      ensures r.Done? ==> Sound() && Extends(old(nodes), nodes) && Extends(old(disk), disk)
      ensures r.Done? ==> OutcomeValid(nodes, r.value, 0, lo, hi)
      ensures r.Done? ==> Writes(old(nodes), id, nodes, r.value, 0, lo, hi, key, value)
      ensures r.Done? ==>
                var out := r.value;
                && |entries| == 129
                && out.Split? && nodes[out.left] == Leaf(entries[..64], Some(out.right)) && nodes[out.right] == Leaf(entries[64..], next)
      ensures batching ==> disk == old(disk)
    {
      hide Layered, Updated, ValidLeaf, SortedEntries, Writes;
      var mid := |entries| / 2;
      var separator := entries[mid].key;
      ghost var before := nodes;
      var right :- StoreNode(Leaf(entries[mid..], next));
      var left :- StoreNode(Leaf(entries[..mid], Some(right)));
      HalfLeaves(entries, lo, hi, next, right);
      HalfLeavesWrite(before, id, nodes, left, right, entries, lo, hi, key, value);
      r := Done(Split(left, right, separator));
    }

    method MutateNode(id: Id, key: Key, value: Option<Value>, ghost h: nat, ghost lo: Option<Key>, ghost hi: Option<Key>) returns (r: Stored<Outcome>)
      requires Sound() && Valid(nodes, id, h, lo, hi) && InRange(key, lo, hi)
      modifies this`disk, this`pending, this`nodes
      ensures r.Clash? ==> Collide(hash, r.first, r.second)
      ensures r.Done? ==> Sound() && Extends(old(nodes), nodes) && Extends(old(disk), disk)
      ensures r.Done? ==> OutcomeValid(nodes, r.value, h, lo, hi)
      ensures r.Done? ==> Writes(old(nodes), id, nodes, r.value, h, lo, hi, key, value)
      ensures batching ==> disk == old(disk)
      decreases h
    {
      hide Layered, ValidLeaf, ValidKeys, Writes, WritesBelow, IsChildIndex, Extends, Between, SortedKeys;
      var node := LoadNode(id);
      if node.Leaf? {
        r := MutateLeaf(id, key, value, lo, hi);
        return;
      }
      var keys, children := node.keys, node.children;
      KeysAreSorted(keys, children, lo, hi);
      var idx := ChildIndexForKey(keys, key);
      IndexFits(keys, key, idx);
      IndexInRange(keys, key, idx, lo, hi);
      ghost var before := nodes;
      ghost var disk0 := disk;
      var child :- MutateNode(children[idx], key, value, h - 1, Low(keys, lo, idx), High(keys, hi, idx));
      ChildWritten(before, id, nodes, child, h, lo, hi, idx, key, value);
      match child
      case One(newChild) =>
        if newChild == children[idx] {
          return Done(One(id));
        }
        r := StoreInner(before, disk0, id, keys, children[idx := newChild], h, lo, hi, key, value);
      case Split(left, right, separator) =>
        r := StoreInner(before, disk0, id, SplitKeys(keys, idx, separator), SplitChildren(children, idx, left, right), h, lo, hi, key, value);
    }

    /** Stores the changed inner node, in two halves if it has grown too large. */
    method StoreInner(
      ghost before: Nodes, ghost disk0: Nodes, ghost id: Id, keys: seq<Key>, children: seq<Id>, ghost h: nat,
      ghost lo: Option<Key>, ghost hi: Option<Key>, ghost key: Key, ghost value: Option<Value>) returns (r: Stored<Outcome>)
      requires Sound() && Extends(before, nodes) && Extends(disk0, disk) && id in before && before[id].Internal? && h > 0
      requires ValidKeys(keys, children, lo, hi) && ValidChildren(nodes, keys, children, h - 1, lo, hi) && |keys| <= MAX_INTERNAL_KEYS + 1
      requires WritesBelow(before, before[id].keys, before[id].children, nodes, keys, children, h - 1, lo, hi, key, value)
      modifies this`disk, this`pending, this`nodes
      ensures r.Clash? ==> Collide(hash, r.first, r.second)
      ensures r.Done? ==> Sound() && Extends(before, nodes) && Extends(disk0, disk)
      ensures r.Done? ==> OutcomeValid(nodes, r.value, h, lo, hi)
      ensures r.Done? ==> Writes(before, id, nodes, r.value, h, lo, hi, key, value)
      ensures r.Done? && |keys| <= 128 ==> r.value.One? && nodes[r.value.id] == Internal(keys, children)
      ensures r.Done? && |keys| > 128 ==>
                var mid := 64;
                && r.value.Split? && nodes[r.value.left] == Internal(keys[..mid], children[..mid + 1])
                && nodes[r.value.right] == Internal(keys[mid + 1..], children[mid + 1..])
      ensures batching ==> disk == old(disk)
    {
      hide Layered, Extends, ValidKeys, Writes, WritesBelow, ValidChildren;
      ghost var middle, disk1 := nodes, disk;
      ChildrenAreThere(nodes, keys, children, h - 1, lo, hi);
      if |keys| <= MAX_INTERNAL_KEYS {
        var newId :- StoreNode(Internal(keys, children));
        ExtendsFurther(before, middle, nodes);
        ExtendsFurther(disk0, disk1, disk);
        ChildrenFrame(middle, nodes, keys, children, h - 1, lo, hi);
        InnerWrites(before, id, nodes, newId, h, lo, hi, key, value, middle);
        return Done(One(newId));
      }
      var mid := |keys| / 2;
      KeysAreSorted(keys, children, lo, hi);
      var left, right :- StoreHalves(keys, children, mid);
      ExtendsFurther(before, middle, nodes);
      ExtendsFurther(disk0, disk1, disk);
      ChildrenFrame(middle, nodes, keys, children, h - 1, lo, hi);
      HalvesValid(nodes, keys, children, h - 1, lo, hi, mid);
      HalvesWrite(before, id, nodes, left, right, keys, children, mid, h, lo, hi, key, value, middle);
      r := Done(Split(left, right, keys[mid]));
    }

    method StoreHalves(keys: seq<Key>, children: seq<Id>, mid: nat) returns (left: Stored<Id>, right: Id)
      requires Sound() && (forall c <- children :: c in nodes) && mid < |keys| && |children| == |keys| + 1
      modifies this`disk, this`pending, this`nodes
      ensures left.Clash? ==> Collide(hash, left.first, left.second)
      ensures left.Done? ==> Sound() && Extends(old(nodes), nodes) && Extends(old(disk), disk)
      ensures left.Done? ==> left.value in nodes && nodes[left.value] == Internal(keys[..mid], children[..mid + 1])
      ensures left.Done? ==> right in nodes && nodes[right] == Internal(keys[mid + 1..], children[mid + 1..])
      ensures batching ==> disk == old(disk)
    {
      hide Layered;
      right := 0;
      left := StoreNode(Internal(keys[..mid], children[..mid + 1]));
      if left.Done? {
        var r := StoreNode(Internal(keys[mid + 1..], children[mid + 1..]));
        if r.Clash? {
          return Clash(r.first, r.second), right;
        }
        right := r.value;
      }
    }

    /** A new root; the tree grows by a level when the old root split. */
    method ApplySingle(root: Id, ghost h: nat, key: Key, value: Option<Value>) returns (r: Stored<Id>, ghost h': nat)
      requires Sound() && Valid(nodes, root, h, None, None)
      modifies this`disk, this`pending, this`nodes
      ensures r.Clash? ==> Collide(hash, r.first, r.second)
      ensures r.Done? ==> Sound() && Extends(old(nodes), nodes) && Extends(old(disk), disk)
      ensures r.Done? ==> Valid(nodes, r.value, h', None, None) && h <= h' <= h + 1
      ensures r.Done? ==> Written(old(nodes), root, h, nodes, r.value, h', key, value)
      ensures batching ==> disk == old(disk)
    {
      hide Layered, Valid, Holds, Writes;
      h' := h;
      var out :- MutateNode(root, key, value, h, None, None);
      match out
      case One(id) =>
        r := Done(id);
        WrittenOne(old(nodes), root, nodes, id, h, key, value);
      case Split(left, right, separator) =>
        ghost var before := nodes;
        ValidIsThere(nodes, left, h, None, Some(separator));
        ValidIsThere(nodes, right, h, Some(separator), None);
        var newRoot :- StoreNode(Internal([separator], [left, right]));
        r, h' := Done(newRoot), h + 1;
        NewRootValid(before, nodes, newRoot, h, left, right, separator);
        WrittenSplit(old(nodes), root, before, nodes, newRoot, h, left, right, separator, key, value);
    }

    /** What is read at a root is read from the disk. */
    method GetAtRoot(root: Id, ghost h: nat, key: Key) returns (r: Option<Value>)
      requires Valid(disk, root, h, None, None)
      ensures forall v: Value :: r == Some(v) <==> Holds(disk, root, h, key, v)
    {
      hide ValidKeys, ValidLeaf, IsChildIndex, SortedKeys, SortedEntries;
      var current := root;
      ghost var g, lo, hi := h, None, None;
      while disk[current].Internal?
        invariant Valid(disk, current, g, lo, hi) && InRange(key, lo, hi)
        invariant forall v :: Holds(disk, root, h, key, v) <==> Holds(disk, current, g, key, v)
        decreases g
      {
        var keys, children := disk[current].keys, disk[current].children;
        KeysAreSorted(keys, children, lo, hi);
        var idx := ChildIndexForKey(keys, key);
        IndexFits(keys, key, idx);
        IndexInRange(keys, key, idx, lo, hi);
        forall v ensures Holds(disk, current, g, key, v) <==> Holds(disk, children[idx], g - 1, key, v) {
          HoldsAt(disk, keys, children, g - 1, key, v, idx);
        }
        current, g, lo, hi := children[idx], g - 1, Low(keys, lo, idx), High(keys, hi, idx);
      }
      LeafIsSorted(disk[current], lo, hi);
      r := ReadLeaf(disk[current].entries, key);
    }

    static method ReadLeaf(entries: seq<Entry>, key: Key) returns (r: Option<Value>)
      requires SortedEntries(entries)
      ensures forall v: Value :: r == Some(v) <==> Entry(key, Some(v)) in entries
    {
      var found, idx := Search(entries, key);
      r := if found then entries[idx].value else None;
      if found {
        assert entries[idx] == Entry(key, entries[idx].value);
      }
    }

    static lemma KeysAreSorted(keys: seq<Key>, children: seq<Id>, lo: Option<Key>, hi: Option<Key>)
      requires ValidKeys(keys, children, lo, hi)
      ensures SortedKeys(keys) && |children| == |keys| + 1
    {
    }
  }

  /** `root'` in `nodes'` holds what `root` held in `nodes`, with `value` under `key`. */
  ghost predicate Written(nodes: Nodes, root: Id, h: nat, nodes': Nodes, root': Id, h': nat, key: Key, value: Option<Value>) {
    forall k, v :: Holds(nodes', root', h', k, v) <==> After(Holds(nodes, root, h, k, v), key, value, k, v)
  }

  lemma WrittenOne(nodes: Nodes, root: Id, nodes': Nodes, id: Id, h: nat, key: Key, value: Option<Value>)
    requires Writes(nodes, root, nodes', One(id), h, None, None, key, value)
    ensures Written(nodes, root, h, nodes', id, h, key, value)
  {
    hide Holds;
    forall k, v ensures Holds(nodes', id, h, k, v) <==> After(Holds(nodes, root, h, k, v), key, value, k, v) {
      assert OutcomeHolds(nodes', One(id), h, k, v) <==> Holds(nodes', id, h, k, v);
    }
  }

  lemma NewRootValid(before: Nodes, nodes: Nodes, root: Id, h: nat, left: Id, right: Id, separator: Key)
    requires Extends(before, nodes) && root in nodes && nodes[root] == Internal([separator], [left, right])
    requires Valid(before, left, h, None, Some(separator)) && Valid(before, right, h, Some(separator), None)
    ensures Valid(nodes, root, h + 1, None, None)
  {
    ValidFrame(before, nodes, left, h, None, Some(separator));
    ValidFrame(before, nodes, right, h, Some(separator), None);
    var keys, children := [separator], [left, right];
    forall i | 0 <= i < |children| ensures Valid(nodes, children[i], h, Low(keys, None, i), High(keys, None, i)) {
      assert i == 0 || i == 1;
    }
  }

  lemma WrittenSplit(
    nodes: Nodes, root: Id, before: Nodes, nodes': Nodes, root': Id, h: nat, left: Id, right: Id, separator: Key, key: Key, value: Option<Value>)
    requires Extends(before, nodes') && root' in nodes' && nodes'[root'] == Internal([separator], [left, right])
    requires Valid(before, left, h, None, Some(separator)) && Valid(before, right, h, Some(separator), None)
    requires Writes(nodes, root, before, Split(left, right, separator), h, None, None, key, value)
    ensures Written(nodes, root, h, nodes', root', h + 1, key, value)
  {
    hide Valid, HoldsBelow;
    forall k, v ensures Holds(nodes', root', h + 1, k, v) <==> After(Holds(nodes, root, h, k, v), key, value, k, v) {
      var j := if k < separator then 0 else 1;
      assert IsChildIndex([separator], k, j);
      HoldsAt(nodes', [separator], [left, right], h, k, v, j);
      HoldsFrame(before, nodes', left, h, None, Some(separator), k, v);
      HoldsFrame(before, nodes', right, h, Some(separator), None, k, v);
      assert OutcomeHolds(before, Split(left, right, separator), h, k, v) <==> Holds(before, [left, right][j], h, k, v);
    }
  }

  /** What is known once the child's outcome has been put in its place. */
  ghost predicate InnerWritten(
    before: Nodes, id: Id, nodes: Nodes, keys: seq<Key>, children: seq<Id>, h: nat, lo: Option<Key>, hi: Option<Key>, key: Key, value: Option<Value>)
    requires id in before && before[id].Internal? && h > 0
  {
    && ValidKeys(keys, children, lo, hi) && ValidChildren(nodes, keys, children, h - 1, lo, hi)
    && WritesBelow(before, before[id].keys, before[id].children, nodes, keys, children, h - 1, lo, hi, key, value)
  }

  lemma ChildWritten(
    before: Nodes, id: Id, nodes: Nodes, child: Outcome, h: nat, lo: Option<Key>, hi: Option<Key>, idx: nat, key: Key, value: Option<Value>)
    requires Extends(before, nodes) && id in before && before[id].Internal? && Valid(before, id, h, lo, hi) && InRange(key, lo, hi)
    requires IsChildIndex(before[id].keys, key, idx) && idx < |before[id].children|
    requires var keys, children := before[id].keys, before[id].children;
             && OutcomeValid(nodes, child, h - 1, Low(keys, lo, idx), High(keys, hi, idx))
             && Writes(before, children[idx], nodes, child, h - 1, Low(keys, lo, idx), High(keys, hi, idx), key, value)
    ensures child.One? ==>
              InnerWritten(before, id, nodes, before[id].keys, before[id].children[idx := child.id], h, lo, hi, key, value)
    ensures child.One? && child.id == before[id].children[idx] ==>
              Valid(nodes, id, h, lo, hi) && Writes(before, id, nodes, One(id), h, lo, hi, key, value)
    ensures child.Split? ==>
              InnerWritten(before, id, nodes, SplitKeys(before[id].keys, idx, child.separator),
                           SplitChildren(before[id].children, idx, child.left, child.right), h, lo, hi, key, value)
  {
    hide ValidKeys, ValidChildren, Writes, WritesBelow, IsChildIndex, SplitKeys, SplitChildren;
    var keys, children := before[id].keys, before[id].children;
    NodeStore.KeysAreSorted(keys, children, lo, hi);
    IndexFits(keys, key, idx);
    match child
    case One(c) =>
      ReplaceChildValid(before, nodes, keys, children, h - 1, lo, hi, idx, c);
      ReplaceChildWrites(before, nodes, keys, children, h - 1, lo, hi, idx, c, key, value);
      SameShape(keys, children, idx, c, lo, hi);
      if c == children[idx] {
        assert children[idx := c] == children;
        InnerWrites(before, id, nodes, id, h, lo, hi, key, value, nodes);
      }
    case Split(left, right, separator) =>
      SplitKeysValid(keys, children, lo, hi, idx, left, right, separator);
      SplitChildValid(before, nodes, keys, children, h - 1, lo, hi, idx, left, right, separator);
      SplitChildWrites(before, nodes, keys, children, h - 1, lo, hi, idx, left, right, separator, key, value);
  }

  lemma SameShape(keys: seq<Key>, children: seq<Id>, idx: nat, c: Id, lo: Option<Key>, hi: Option<Key>)
    requires ValidKeys(keys, children, lo, hi) && idx < |children|
    ensures ValidKeys(keys, children[idx := c], lo, hi)
  {
  }

  lemma ExtendsFurther(a: Nodes, b: Nodes, c: Nodes)
    requires Extends(a, b) && Extends(b, c)
    ensures Extends(a, c)
  {
  }

  lemma ValidIsThere(nodes: Nodes, id: Id, h: nat, lo: Option<Key>, hi: Option<Key>)
    requires Valid(nodes, id, h, lo, hi)
    ensures id in nodes
  {
  }

  lemma ChildrenAreThere(nodes: Nodes, keys: seq<Key>, children: seq<Id>, h: nat, lo: Option<Key>, hi: Option<Key>)
    requires ValidChildren(nodes, keys, children, h, lo, hi)
    ensures forall c <- children :: c in nodes
  {
  }

  lemma LeafIsSorted(leaf: Node, lo: Option<Key>, hi: Option<Key>)
    requires leaf.Leaf? && ValidLeaf(leaf, lo, hi)
    ensures SortedEntries(leaf.entries)
  {
  }

  lemma SmallLeafValid(leaf: Node, lo: Option<Key>, hi: Option<Key>)
    requires leaf.Leaf? && SortedEntries(leaf.entries) && (forall e <- leaf.entries :: InRange(e.key, lo, hi)) && |leaf.entries| <= MAX_LEAF_ENTRIES
    ensures ValidLeaf(leaf, lo, hi)
  {
  }
}
