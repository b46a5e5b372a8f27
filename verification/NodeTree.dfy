/** The persistent B+tree: nodes stored under the hash of their contents, and what a root stands for. */
module NodeTree {
  import opened Collections

  /** Keys are byte strings and only their order is used; that order embeds in the reals. */
  type Key = real
  type Value = nat
  type Id = nat

  /** An entry without a value is a deletion mark that older versions left behind. */
  datatype Entry = Entry(key: Key, value: Option<Value>)

  datatype Node =
    | Leaf(entries: seq<Entry>, next: Option<Id>)
    | Internal(keys: seq<Key>, children: seq<Id>)

  type Nodes = map<Id, Node>

  const MAX_LEAF_ENTRIES := 128
  const MAX_INTERNAL_KEYS := 128

  // ---- order and bounds ----------------------------------------------------------------------------

  ghost predicate SortedKeys(keys: seq<Key>) {
    forall i, j :: 0 <= i < j < |keys| ==> keys[i] < keys[j]
  }

  ghost predicate SortedEntries(entries: seq<Entry>) {
    forall i, j :: 0 <= i < j < |entries| ==> entries[i].key < entries[j].key
  }

  /** From `lo` on and below `hi`, where each may be missing. */
  predicate InRange(k: Key, lo: Option<Key>, hi: Option<Key>) {
    (lo.Some? ==> lo.value <= k) && (hi.Some? ==> k < hi.value)
  }

  predicate Above(k: Key, lo: Option<Key>) {
    lo.Some? ==> lo.value < k
  }

  function Low(keys: seq<Key>, lo: Option<Key>, i: nat): Option<Key> {
    if 0 < i <= |keys| then Some(keys[i - 1]) else lo
  }

  function High(keys: seq<Key>, hi: Option<Key>, i: nat): Option<Key> {
    if i < |keys| then Some(keys[i]) else hi
  }

  /** Which child a key belongs to: the number of separators at or below it. */
  ghost predicate IsChildIndex(keys: seq<Key>, k: Key, j: nat) {
    && j <= |keys|
    && (forall i :: 0 <= i < j ==> keys[i] <= k)
    && (forall i :: j <= i < |keys| ==> k < keys[i])
  }

  /** By bisection, for the first separator above the key. */
  method ChildIndexForKey(keys: seq<Key>, k: Key) returns (j: nat)
    requires SortedKeys(keys)
    ensures IsChildIndex(keys, k, j)
  {
    var lo, hi := 0, |keys|;
    while lo < hi
      invariant 0 <= lo <= hi <= |keys|
      invariant forall i :: 0 <= i < lo ==> keys[i] <= k
      invariant forall i :: hi <= i < |keys| ==> k < keys[i]
    {
      var mid := (lo + hi) / 2;
      if k < keys[mid] {
        hi := mid;
      } else {
        lo := mid + 1;
      }
    }
    j := lo;
  }

  // ---- what a root stands for --------------------------------------------------------------------------

  ghost predicate ValidLeaf(node: Node, lo: Option<Key>, hi: Option<Key>)
    requires node.Leaf?
  {
    && SortedEntries(node.entries) && |node.entries| <= 128
    && forall e <- node.entries :: InRange(e.key, lo, hi)
  }

  ghost predicate ValidKeys(keys: seq<Key>, children: seq<Id>, lo: Option<Key>, hi: Option<Key>) {
    && SortedKeys(keys) && |children| == |keys| + 1
    && forall k <- keys :: Above(k, lo) && InRange(k, lo, hi)
  }

  ghost predicate ValidChildren(nodes: Nodes, keys: seq<Key>, children: seq<Id>, h: nat, lo: Option<Key>, hi: Option<Key>)
    decreases h, 1
  {
    forall i :: 0 <= i < |children| ==> Valid(nodes, children[i], h, Low(keys, lo, i), High(keys, hi, i))
  }

  /** A search tree of height `h` with every leaf at the bottom, its keys within the bounds, its nodes no larger
      than allowed. */
  ghost predicate Valid(nodes: Nodes, id: Id, h: nat, lo: Option<Key>, hi: Option<Key>)
    decreases h, 0
  {
    && id in nodes
    && match nodes[id]
       case Leaf(_, _) => h == 0 && ValidLeaf(nodes[id], lo, hi)
       case Internal(keys, children) =>
         && h > 0 && |keys| <= 128 && ValidKeys(keys, children, lo, hi)
         && ValidChildren(nodes, keys, children, h - 1, lo, hi)
  }

  /** Searching for `k` from `id` down finds the value `v`. */
  ghost predicate Holds(nodes: Nodes, id: Id, h: nat, k: Key, v: Value)
    decreases h, 0
  {
    id in nodes &&
    match nodes[id]
    case Leaf(entries, _) => Entry(k, Some(v)) in entries
    case Internal(keys, children) => h > 0 && HoldsBelow(nodes, keys, children, h - 1, k, v)
  }

  ghost predicate HoldsBelow(nodes: Nodes, keys: seq<Key>, children: seq<Id>, h: nat, k: Key, v: Value)
    decreases h, 1
  {
    exists j :: 0 <= j < |children| && IsChildIndex(keys, k, j) && Holds(nodes, children[j], h, k, v)
  }

  /** More nodes, the old ones unchanged. */
  ghost predicate Extends(nodes: Nodes, more: Nodes) {
    forall id :: id in nodes ==> id in more && more[id] == nodes[id]
  }

  /** Adding nodes changes nothing about a root that was there. */
  lemma {:induction false} ValidFrame(nodes: Nodes, more: Nodes, id: Id, h: nat, lo: Option<Key>, hi: Option<Key>)
    requires Extends(nodes, more) && Valid(nodes, id, h, lo, hi)
    ensures Valid(more, id, h, lo, hi)
    decreases h
  {
    if nodes[id].Internal? {
      var keys, children := nodes[id].keys, nodes[id].children;
      forall i | 0 <= i < |children| ensures Valid(more, children[i], h - 1, Low(keys, lo, i), High(keys, hi, i)) {
        ValidFrame(nodes, more, children[i], h - 1, Low(keys, lo, i), High(keys, hi, i));
      }
    }
  }

  lemma {:induction false} HoldsFrame(nodes: Nodes, more: Nodes, id: Id, h: nat, lo: Option<Key>, hi: Option<Key>, k: Key, v: Value)
    requires Extends(nodes, more) && Valid(nodes, id, h, lo, hi)
    ensures Holds(more, id, h, k, v) <==> Holds(nodes, id, h, k, v)
    decreases h
  {
    if nodes[id].Internal? {
      var keys, children := nodes[id].keys, nodes[id].children;
      forall j | 0 <= j < |children| ensures Holds(more, children[j], h - 1, k, v) <==> Holds(nodes, children[j], h - 1, k, v) {
        HoldsFrame(nodes, more, children[j], h - 1, Low(keys, lo, j), High(keys, hi, j), k, v);
      }
    }
  }

  lemma IndexIsUnique(keys: seq<Key>, k: Key, i: nat, j: nat)
    requires IsChildIndex(keys, k, i) && IsChildIndex(keys, k, j)
    ensures i == j
  {
    assert i < |keys| ==> k < keys[i];
    assert j < |keys| ==> k < keys[j];
  }

  /** A key in the range of a node is in the range of the child it belongs to. */
  lemma IndexInRange(keys: seq<Key>, k: Key, j: nat, lo: Option<Key>, hi: Option<Key>)
    requires IsChildIndex(keys, k, j) && InRange(k, lo, hi)
    ensures InRange(k, Low(keys, lo, j), High(keys, hi, j))
  {
  }

  lemma HoldsAt(nodes: Nodes, keys: seq<Key>, children: seq<Id>, h: nat, k: Key, v: Value, j: nat)
    requires IsChildIndex(keys, k, j) && j < |children|
    ensures HoldsBelow(nodes, keys, children, h, k, v) <==> Holds(nodes, children[j], h, k, v)
  {
    if HoldsBelow(nodes, keys, children, h, k, v) {
      var i :| 0 <= i < |children| && IsChildIndex(keys, k, i) && Holds(nodes, children[i], h, k, v);
      IndexIsUnique(keys, k, i, j);
    }
  }

  lemma {:induction false} HoldsOne(nodes: Nodes, id: Id, h: nat, lo: Option<Key>, hi: Option<Key>, k: Key, v: Value, w: Value)
    requires Valid(nodes, id, h, lo, hi) && Holds(nodes, id, h, k, v) && Holds(nodes, id, h, k, w)
    ensures v == w
    decreases h
  {
    if nodes[id].Internal? {
      var keys, children := nodes[id].keys, nodes[id].children;
      var j :| 0 <= j < |children| && IsChildIndex(keys, k, j) && Holds(nodes, children[j], h - 1, k, v);
      HoldsAt(nodes, keys, children, h - 1, k, w, j);
      HoldsOne(nodes, children[j], h - 1, Low(keys, lo, j), High(keys, hi, j), k, v, w);
    }
  }
}
