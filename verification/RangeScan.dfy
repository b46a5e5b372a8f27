/** Reading a range of keys at a root: down to the first leaf, then from leaf to leaf along the path. */
module RangeScan {
  import opened Collections
  import opened NodeTree
  import opened TreeMutation
  import opened NodeStores

  // ---- the entries in order ------------------------------------------------------------------------------

  ghost function InOrder(nodes: Nodes, id: Id, h: nat): seq<Entry>
    decreases h, 0
  {
    if id !in nodes then []
    else match nodes[id]
      case Leaf(entries, _) => entries
      case Internal(_, children) => if h == 0 then [] else InOrderAll(nodes, children, h - 1)
  }

  ghost function InOrderAll(nodes: Nodes, ids: seq<Id>, h: nat): seq<Entry>
    decreases h, 1 + |ids|
  {
    if ids == [] then [] else InOrder(nodes, ids[0], h) + InOrderAll(nodes, ids[1..], h)
  }

  lemma {:induction false} InOrderConcat(nodes: Nodes, a: seq<Id>, b: seq<Id>, h: nat)
    ensures InOrderAll(nodes, a + b, h) == InOrderAll(nodes, a, h) + InOrderAll(nodes, b, h)
  {
    if a == [] {
      assert a + b == b;
    } else {
      assert (a + b)[1..] == a[1..] + b;
      InOrderConcat(nodes, a[1..], b, h);
    }
  }

  lemma InOrderAt(nodes: Nodes, ids: seq<Id>, h: nat, i: nat)
    requires i < |ids|
    ensures InOrderAll(nodes, ids, h) == InOrderAll(nodes, ids[..i], h) + InOrder(nodes, ids[i], h) + InOrderAll(nodes, ids[i + 1..], h)
  {
    assert ids == ids[..i] + ids[i..];
    InOrderConcat(nodes, ids[..i], ids[i..], h);
    assert ids[i..][1..] == ids[i + 1..];
  }

  ghost predicate Within(entries: seq<Entry>, lo: Option<Key>, hi: Option<Key>) {
    forall e <- entries :: InRange(e.key, lo, hi)
  }

  /** The children from `i` on hold sorted entries from their lower bound up. */
  lemma {:induction false} ChildrenInOrder(nodes: Nodes, keys: seq<Key>, children: seq<Id>, h: nat, lo: Option<Key>, hi: Option<Key>, i: nat)
    requires ValidKeys(keys, children, lo, hi) && ValidChildren(nodes, keys, children, h, lo, hi) && i <= |children|
    ensures SortedEntries(InOrderAll(nodes, children[i..], h))
    ensures i < |children| ==> Within(InOrderAll(nodes, children[i..], h), Low(keys, lo, i), hi)
    decreases h, 1 + |children| - i
  {
    if i < |children| {
      var first, rest := InOrder(nodes, children[i], h), InOrderAll(nodes, children[i + 1..], h);
      assert children[i..][0] == children[i] && children[i..][1..] == children[i + 1..];
      TreeInOrder(nodes, children[i], h, Low(keys, lo, i), High(keys, hi, i));
      ChildrenInOrder(nodes, keys, children, h, lo, hi, i + 1);
      if i < |keys| {
        BoundsNest(keys, children, lo, hi, i);
      }
      JoinInOrder(first, rest, Low(keys, lo, i), High(keys, hi, i), hi, i + 1 < |children|);
    }
  }

  lemma BoundsNest(keys: seq<Key>, children: seq<Id>, lo: Option<Key>, hi: Option<Key>, i: nat)
    requires ValidKeys(keys, children, lo, hi) && i < |keys|
    ensures InRange(keys[i], Low(keys, lo, i), hi)
  {
    assert keys[i] in keys;
  }

  lemma JoinInOrder(a: seq<Entry>, b: seq<Entry>, lo: Option<Key>, mid: Option<Key>, hi: Option<Key>, more: bool)
    requires SortedEntries(a) && SortedEntries(b) && Within(a, lo, mid)
    requires if more then mid.Some? && InRange(mid.value, lo, hi) && Within(b, mid, hi) else b == [] && mid == hi
    ensures SortedEntries(a + b) && Within(a + b, lo, hi)
  {
    forall i, j | 0 <= i < |a| && 0 <= j < |b| ensures a[i].key < b[j].key {
      assert a[i] in a && b[j] in b;
    }
    forall e <- a + b ensures InRange(e.key, lo, hi) {
      assert e in a || e in b;
    }
  }

  lemma {:induction false} TreeInOrder(nodes: Nodes, id: Id, h: nat, lo: Option<Key>, hi: Option<Key>)
    requires Valid(nodes, id, h, lo, hi)
    ensures SortedEntries(InOrder(nodes, id, h)) && Within(InOrder(nodes, id, h), lo, hi)
    decreases h, 0
  {
    match nodes[id]
    case Leaf(_, _) =>
    case Internal(keys, children) =>
      ChildrenInOrder(nodes, keys, children, h - 1, lo, hi, 0);
      assert children[0..] == children;
  }

  lemma {:induction false} InSomeChild(nodes: Nodes, ids: seq<Id>, h: nat, e: Entry)
    ensures e in InOrderAll(nodes, ids, h) <==> exists i :: 0 <= i < |ids| && e in InOrder(nodes, ids[i], h)
  {
    if ids != [] {
      InSomeChild(nodes, ids[1..], h, e);
      assert forall i :: 1 <= i < |ids| ==> ids[i] == ids[1..][i - 1];
      if e in InOrderAll(nodes, ids[1..], h) {
        var i :| 0 <= i < |ids[1..]| && e in InOrder(nodes, ids[1..][i], h);
        assert e in InOrder(nodes, ids[i + 1], h);
      }
    }
  }

  lemma RangeIndex(keys: seq<Key>, lo: Option<Key>, hi: Option<Key>, i: nat, k: Key)
    requires SortedKeys(keys) && i <= |keys| && InRange(k, Low(keys, lo, i), High(keys, hi, i))
    ensures IsChildIndex(keys, k, i)
  {
  }

  /** The entries in order are exactly what searching finds. */
  lemma {:induction false} InOrderIsWhatHolds(nodes: Nodes, id: Id, h: nat, lo: Option<Key>, hi: Option<Key>, k: Key, v: Value)
    requires Valid(nodes, id, h, lo, hi)
    ensures Entry(k, Some(v)) in InOrder(nodes, id, h) <==> Holds(nodes, id, h, k, v)
    decreases h
  {
    match nodes[id]
    case Leaf(_, _) =>
    case Internal(keys, children) =>
      hide InOrderAll, ValidKeys, ValidChildren, IsChildIndex, HoldsBelow;
      NodeStore.KeysAreSorted(keys, children, lo, hi);
      var e := Entry(k, Some(v));
      var j := IndexExists(keys, k);
      HoldsAt(nodes, keys, children, h - 1, k, v, j);
      InSomeChild(nodes, children, h - 1, e);
      ChildIsValid(nodes, keys, children, h - 1, lo, hi, j);
      InOrderIsWhatHolds(nodes, children[j], h - 1, Low(keys, lo, j), High(keys, hi, j), k, v);
      forall i | 0 <= i < |children| && e in InOrder(nodes, children[i], h - 1) ensures i == j {
        OwnChild(nodes, keys, children, h - 1, lo, hi, i, j, e);
      }
  }

  lemma OwnChild(
    nodes: Nodes, keys: seq<Key>, children: seq<Id>, h: nat, lo: Option<Key>, hi: Option<Key>, i: nat, j: nat, e: Entry)
    requires ValidKeys(keys, children, lo, hi) && ValidChildren(nodes, keys, children, h, lo, hi)
    requires i < |children| && e in InOrder(nodes, children[i], h) && IsChildIndex(keys, e.key, j)
    ensures i == j
  {
    hide InOrder, ValidChildren, Valid, IsChildIndex, SortedKeys;
    ChildIsValid(nodes, keys, children, h, lo, hi, i);
    TreeInOrder(nodes, children[i], h, Low(keys, lo, i), High(keys, hi, i));
    NodeStore.KeysAreSorted(keys, children, lo, hi);
    RangeIndex(keys, lo, hi, i, e.key);
    IndexIsUnique(keys, e.key, i, j);
  }

  // ---- the leaves in order -----------------------------------------------------------------------------------

  ghost function LeavesOf(nodes: Nodes, id: Id, h: nat): seq<Id>
    decreases h, 0
  {
    if id !in nodes then []
    else match nodes[id]
      case Leaf(_, _) => [id]
      case Internal(_, children) => if h == 0 then [] else LeavesOfAll(nodes, children, h - 1)
  }

  ghost function LeavesOfAll(nodes: Nodes, ids: seq<Id>, h: nat): seq<Id>
    decreases h, 1 + |ids|
  {
    if ids == [] then [] else LeavesOf(nodes, ids[0], h) + LeavesOfAll(nodes, ids[1..], h)
  }

  ghost function EntriesOf(nodes: Nodes, leaves: seq<Id>): seq<Entry> {
    if leaves == [] then []
    else (if leaves[0] in nodes && nodes[leaves[0]].Leaf? then nodes[leaves[0]].entries else []) + EntriesOf(nodes, leaves[1..])
  }

  lemma {:induction false} EntriesConcat(nodes: Nodes, a: seq<Id>, b: seq<Id>)
    ensures EntriesOf(nodes, a + b) == EntriesOf(nodes, a) + EntriesOf(nodes, b)
  {
    if a == [] {
      assert a + b == b;
    } else {
      assert (a + b)[1..] == a[1..] + b;
      EntriesConcat(nodes, a[1..], b);
    }
  }

  lemma {:induction false} LeavesAreInOrder(nodes: Nodes, id: Id, h: nat)
    ensures EntriesOf(nodes, LeavesOf(nodes, id, h)) == InOrder(nodes, id, h)
    decreases h, 0
  {
    if id in nodes {
      match nodes[id]
      case Leaf(_, _) =>
        assert [id][1..] == [];
      case Internal(_, children) =>
        if h > 0 {
          AllLeavesAreInOrder(nodes, children, h - 1);
        }
    }
  }

  lemma {:induction false} AllLeavesAreInOrder(nodes: Nodes, ids: seq<Id>, h: nat)
    ensures EntriesOf(nodes, LeavesOfAll(nodes, ids, h)) == InOrderAll(nodes, ids, h)
    decreases h, 1 + |ids|
  {
    if ids != [] {
      LeavesAreInOrder(nodes, ids[0], h);
      AllLeavesAreInOrder(nodes, ids[1..], h);
      EntriesConcat(nodes, LeavesOf(nodes, ids[0], h), LeavesOfAll(nodes, ids[1..], h));
    }
  }

  // ---- the path ----------------------------------------------------------------------------------------------

  datatype Step = Step(id: Id, child: nat)

  /** The inner nodes from the root down and the child taken in each; `g` is the height of the node reached. */
  ghost predicate PathValid(nodes: Nodes, path: seq<Step>, g: nat) {
    path != [] ==>
      var last := path[|path| - 1];
      && last.id in nodes && nodes[last.id].Internal? && last.child < |nodes[last.id].children|
      && (forall c <- nodes[last.id].children :: Shaped(nodes, c, g))
      && PathValid(nodes, path[..|path| - 1], g + 1)
  }

  /** All that walking the tree needs to know of it. */
  ghost predicate Shaped(nodes: Nodes, id: Id, h: nat)
    decreases h
  {
    id in nodes &&
    match nodes[id]
    case Leaf(_, _) => h == 0
    case Internal(_, children) => h > 0 && children != [] && forall c <- children :: Shaped(nodes, c, h - 1)
  }

  lemma {:induction false} ValidIsShaped(nodes: Nodes, id: Id, h: nat, lo: Option<Key>, hi: Option<Key>)
    requires Valid(nodes, id, h, lo, hi)
    ensures Shaped(nodes, id, h)
    decreases h
  {
    if nodes[id].Internal? {
      var keys, children := nodes[id].keys, nodes[id].children;
      forall c <- children ensures Shaped(nodes, c, h - 1) {
        var i :| 0 <= i < |children| && children[i] == c;
        ValidIsShaped(nodes, c, h - 1, Low(keys, lo, i), High(keys, hi, i));
      }
    }
  }

  /** The leaves to the right of the path. */
  ghost function Remaining(nodes: Nodes, path: seq<Step>, g: nat): seq<Id>
    requires PathValid(nodes, path, g)
  {
    if path == [] then []
    else
      var last := path[|path| - 1];
      LeavesOfAll(nodes, nodes[last.id].children[last.child + 1..], g) + Remaining(nodes, path[..|path| - 1], g + 1)
  }

  lemma PathPush(nodes: Nodes, path: seq<Step>, g: nat, id: Id, child: nat)
    requires PathValid(nodes, path, g) && g > 0 && Shaped(nodes, id, g) && child < |nodes[id].children|
    ensures PathValid(nodes, path + [Step(id, child)], g - 1)
    ensures Remaining(nodes, path + [Step(id, child)], g - 1)
            == LeavesOfAll(nodes, nodes[id].children[child + 1..], g - 1) + Remaining(nodes, path, g)
  {
    var longer := path + [Step(id, child)];
    assert longer[..|longer| - 1] == path;
  }

  /** Down to the leftmost leaf below a node. */
  method Leftmost(store: NodeStore, id: Id, ghost h: nat, path: seq<Step>) returns (leaf: Id, path': seq<Step>)
    requires Shaped(store.disk, id, h) && PathValid(store.disk, path, h)
    ensures leaf in store.disk && store.disk[leaf].Leaf? && PathValid(store.disk, path', 0)
    ensures [leaf] + Remaining(store.disk, path', 0) == LeavesOf(store.disk, id, h) + Remaining(store.disk, path, h)
  {
    hide PathValid, Remaining;
    leaf, path' := id, path;
    ghost var g := h;
    while store.disk[leaf].Internal?
      invariant Shaped(store.disk, leaf, g) && PathValid(store.disk, path', g)
      invariant LeavesOf(store.disk, leaf, g) + Remaining(store.disk, path', g) == LeavesOf(store.disk, id, h) + Remaining(store.disk, path, h)
      decreases g
    {
      var children := store.disk[leaf].children;
      PathPush(store.disk, path', g, leaf, 0);
      assert children[0] in children;
      assert LeavesOf(store.disk, leaf, g) == LeavesOf(store.disk, children[0], g - 1) + LeavesOfAll(store.disk, children[1..], g - 1);
      path' := path' + [Step(leaf, 0)];
      leaf, g := children[0], g - 1;
    }
  }

  /** Moving on from the last step of a path: to the next child, or out of a node that has no more. */
  lemma PathNext(nodes: Nodes, path: seq<Step>, g: nat)
    requires PathValid(nodes, path, g) && path != []
    ensures var last, init := path[|path| - 1], path[..|path| - 1];
            var children, next := nodes[last.id].children, last.child + 1;
            && PathValid(nodes, init, g + 1)
            && (next >= |children| ==> Remaining(nodes, path, g) == Remaining(nodes, init, g + 1))
            && (next < |children| ==>
                  && Shaped(nodes, children[next], g) && PathValid(nodes, init + [Step(last.id, next)], g)
                  && Remaining(nodes, path, g) == LeavesOf(nodes, children[next], g) + Remaining(nodes, init + [Step(last.id, next)], g))
  {
    hide LeavesOf, Shaped;
    var last, init := path[|path| - 1], path[..|path| - 1];
    var children, next := nodes[last.id].children, last.child + 1;
    if next < |children| {
      var moved := init + [Step(last.id, next)];
      assert moved[..|moved| - 1] == init;
      assert children[next] in children;
      assert children[next..][0] == children[next] && children[next..][1..] == children[next + 1..];
    }
  }

  /** The next leaf to the right, if there is one. */
  method NextLeaf(store: NodeStore, path: seq<Step>) returns (leaf: Option<Id>, path': seq<Step>)
    requires PathValid(store.disk, path, 0)
    ensures PathValid(store.disk, path', 0)
    ensures leaf.Some? ==> leaf.value in store.disk && store.disk[leaf.value].Leaf?
    ensures leaf.Some? ==> [leaf.value] + Remaining(store.disk, path', 0) == Remaining(store.disk, path, 0)
    ensures leaf.None? ==> Remaining(store.disk, path, 0) == []
  {
    hide LeavesOf, Shaped;
    path' := path;
    ghost var g := 0;
    while path' != []
      invariant PathValid(store.disk, path', g) && Remaining(store.disk, path', g) == Remaining(store.disk, path, 0)
    {
      PathNext(store.disk, path', g);
      var last := path'[|path'| - 1];
      path' := path'[..|path'| - 1];
      var children, next := store.disk[last.id].children, last.child + 1;
      if next >= |children| {
        g := g + 1;
        continue;
      }
      path' := path' + [Step(last.id, next)];
      var l;
      l, path' := Leftmost(store, children[next], g, path');
      return Some(l), path';
    }
    leaf := None;
  }

  // ---- the range ------------------------------------------------------------------------------------------------

  datatype KeyValue = KeyValue(key: Key, value: Value)

  /** The live entries from `start` on and below `end`. */
  ghost function Select(entries: seq<Entry>, start: Key, end: Option<Key>): seq<KeyValue> {
    if entries == [] then []
    else
      var e := entries[|entries| - 1];
      Select(entries[..|entries| - 1], start, end)
      + if InRange(e.key, Some(start), end) && e.value.Some? then [KeyValue(e.key, e.value.value)] else []
  }

  lemma {:induction false} SelectConcat(a: seq<Entry>, b: seq<Entry>, start: Key, end: Option<Key>)
    ensures Select(a + b, start, end) == Select(a, start, end) + Select(b, start, end)
    decreases |b|
  {
    if b == [] {
      assert a + b == a;
    } else {
      var n := |b| - 1;
      SelectConcat(a, b[..n], start, end);
      assert (a + b)[..|a + b| - 1] == a + b[..n];
    }
  }

  lemma {:induction false} SelectNone(entries: seq<Entry>, start: Key, end: Option<Key>)
    requires forall e <- entries :: !InRange(e.key, Some(start), end)
    ensures Select(entries, start, end) == []
  {
    if entries != [] {
      assert entries[|entries| - 1] in entries;
      SelectNone(entries[..|entries| - 1], start, end);
    }
  }

  /** On sorted entries, nothing is selected from the first key at or past the end on. */
  lemma PastTheEnd(all: seq<Entry>, i: nat, start: Key, end: Key)
    requires SortedEntries(all) && i < |all| && end <= all[i].key
    ensures Select(all[i..], start, Some(end)) == []
  {
    forall e <- all[i..] ensures !InRange(e.key, Some(start), Some(end)) {
      var j :| i <= j < |all| && all[j] == e;
    }
    SelectNone(all[i..], start, Some(end));
  }

  lemma SelectFirst(e: Entry, start: Key, end: Option<Key>)
    ensures Select([e], start, end) == if InRange(e.key, Some(start), end) && e.value.Some? then [KeyValue(e.key, e.value.value)] else []
  {
    assert [e][..0] == [];
  }

  /** What is known of the leaf reached and the path to it: `left` is before it, the rest after it. */
  ghost predicate AtLeaf(nodes: Nodes, all: seq<Entry>, left: seq<Entry>, leaf: Id, path: seq<Step>) {
    && leaf in nodes && nodes[leaf].Leaf? && PathValid(nodes, path, 0)
    && all == left + (nodes[leaf].entries + EntriesOf(nodes, Remaining(nodes, path, 0)))
  }

  lemma SplitAround(nodes: Nodes, keys: seq<Key>, children: seq<Id>, h: nat, lo: Option<Key>, hi: Option<Key>, idx: nat, key: Key)
    requires ValidKeys(keys, children, lo, hi) && ValidChildren(nodes, keys, children, h, lo, hi) && IsChildIndex(keys, key, idx)
    ensures forall e <- InOrderAll(nodes, children[..idx], h) :: e.key < key
    ensures forall e <- InOrderAll(nodes, children[idx + 1..], h) :: key < e.key
  {
    hide InOrder, Valid;
    forall e <- InOrderAll(nodes, children[..idx], h) ensures e.key < key {
      InSomeChild(nodes, children[..idx], h, e);
      var i :| 0 <= i < idx && e in InOrder(nodes, children[i], h);
      TreeInOrder(nodes, children[i], h, Low(keys, lo, i), High(keys, hi, i));
    }
    forall e <- InOrderAll(nodes, children[idx + 1..], h) ensures key < e.key {
      InSomeChild(nodes, children[idx + 1..], h, e);
      var i :| 0 <= i < |children| - idx - 1 && e in InOrder(nodes, children[idx + 1..][i], h);
      var j := idx + 1 + i;
      TreeInOrder(nodes, children[j], h, Low(keys, lo, j), High(keys, hi, j));
    }
  }

  /** One step down: what lies left and right of the child is before and after the key. */
  lemma Descend(
    nodes: Nodes, all: seq<Entry>, left: seq<Entry>, id: Id, g: nat, lo: Option<Key>, hi: Option<Key>, path: seq<Step>, idx: nat, key: Key)
    requires Valid(nodes, id, g, lo, hi) && nodes[id].Internal? && PathValid(nodes, path, g) && IsChildIndex(nodes[id].keys, key, idx)
    requires all == left + (InOrder(nodes, id, g) + EntriesOf(nodes, Remaining(nodes, path, g)))
    requires (forall e <- left :: e.key < key) && forall e <- EntriesOf(nodes, Remaining(nodes, path, g)) :: key < e.key
    ensures idx < |nodes[id].children| && PathValid(nodes, path + [Step(id, idx)], g - 1)
    ensures var children := nodes[id].children;
            var left' := left + InOrderAll(nodes, children[..idx], g - 1);
            var right' := EntriesOf(nodes, Remaining(nodes, path + [Step(id, idx)], g - 1));
            && all == left' + (InOrder(nodes, children[idx], g - 1) + right')
            && (forall e <- left' :: e.key < key) && (forall e <- right' :: key < e.key)
  {
    var keys, children := nodes[id].keys, nodes[id].children;
    var right := EntriesOf(nodes, Remaining(nodes, path, g));
    ValidIsShaped(nodes, id, g, lo, hi);
    hide Valid, Shaped, PathValid, Remaining;
    PathPush(nodes, path, g, id, idx);
    EntriesConcat(nodes, LeavesOfAll(nodes, children[idx + 1..], g - 1), Remaining(nodes, path, g));
    AllLeavesAreInOrder(nodes, children[idx + 1..], g - 1);
    InOrderAt(nodes, children, g - 1, idx);
    SplitAround(nodes, keys, children, g - 1, lo, hi, idx, key);
    Regroup(left, InOrderAll(nodes, children[..idx], g - 1), InOrder(nodes, children[idx], g - 1), InOrderAll(nodes, children[idx + 1..], g - 1), right);
  }

  lemma Regroup(a: seq<Entry>, b: seq<Entry>, c: seq<Entry>, d: seq<Entry>, e: seq<Entry>)
    ensures a + ((b + c + d) + e) == (a + b) + (c + (d + e))
  {
  }

  method FindLeaf(store: NodeStore, root: Id, ghost h: nat, key: Key) returns (leaf: Id, path: seq<Step>, ghost left: seq<Entry>)
    requires Valid(store.disk, root, h, None, None)
    ensures AtLeaf(store.disk, InOrder(store.disk, root, h), left, leaf, path)
    ensures (forall e <- left :: e.key < key) && forall e <- EntriesOf(store.disk, Remaining(store.disk, path, 0)) :: key < e.key
  {
    hide PathValid, Remaining, ValidKeys, ValidChildren, ValidLeaf, IsChildIndex, SortedKeys;
    ghost var nodes, all := store.disk, InOrder(store.disk, root, h);
    leaf, path, left := root, [], [];
    ghost var g, lo, hi := h, None, None;
    NoPath(nodes, h);
    while store.disk[leaf].Internal?
      invariant Valid(nodes, leaf, g, lo, hi) && PathValid(nodes, path, g)
      invariant all == left + (InOrder(nodes, leaf, g) + EntriesOf(nodes, Remaining(nodes, path, g)))
      invariant (forall e <- left :: e.key < key) && forall e <- EntriesOf(nodes, Remaining(nodes, path, g)) :: key < e.key
      decreases g
    {
      var keys, children := store.disk[leaf].keys, store.disk[leaf].children;
      NodeStore.KeysAreSorted(keys, children, lo, hi);
      var idx := ChildIndexForKey(keys, key);
      Descend(nodes, all, left, leaf, g, lo, hi, path, idx, key);
      ChildIsValid(nodes, keys, children, g - 1, lo, hi, idx);
      left := left + InOrderAll(nodes, children[..idx], g - 1);
      path := path + [Step(leaf, idx)];
      leaf, g, lo, hi := children[idx], g - 1, Low(keys, lo, idx), High(keys, hi, idx);
    }
  }

  lemma ChildIsValid(nodes: Nodes, keys: seq<Key>, children: seq<Id>, h: nat, lo: Option<Key>, hi: Option<Key>, idx: nat)
    requires ValidChildren(nodes, keys, children, h, lo, hi) && idx < |children|
    ensures Valid(nodes, children[idx], h, Low(keys, lo, idx), High(keys, hi, idx))
  {
  }

  lemma NoPath(nodes: Nodes, h: nat)
    ensures PathValid(nodes, [], h) && Remaining(nodes, [], h) == []
  {
  }

  // ---- all of a range -------------------------------------------------------------------------------------------

  function PageOf(e: Entry): seq<KeyValue> {
    if e.value.Some? then [KeyValue(e.key, e.value.value)] else []
  }

  lemma NothingSelected(start: Key, end: Option<Key>)
    ensures Select([], start, end) == []
  {
  }

  /** The entries of one leaf from position `from` on, up to the end of the range. */
  method ScanLeaf(entries: seq<Entry>, from: nat, start: Key, end: Option<Key>, out0: seq<KeyValue>) returns (out: seq<KeyValue>, stop: Option<nat>)
    requires from <= |entries| && forall e <- entries[from..] :: start <= e.key
    ensures stop.None? ==> out == out0 + Select(entries[from..], start, end)
    ensures stop.Some? ==> from <= stop.value < |entries| && end.Some? && end.value <= entries[stop.value].key
    ensures stop.Some? ==> out == out0 + Select(entries[from..stop.value], start, end)
  {
    hide Select;
    out, stop := out0, None;
    NothingSelected(start, end);
    assert entries[from..from] == [];
    for i := from to |entries|
      invariant out == out0 + Select(entries[from..i], start, end)
    {
      var e := entries[i];
      if end.Some? && e.key >= end.value {
        return out, Some(i);
      }
      assert entries[from..][i - from] == e;
      assert entries[from..i + 1] == entries[from..i] + [e];
      SelectConcat(entries[from..i], [e], start, end);
      SelectFirst(e, start, end);
      out := out + PageOf(e);
    }
    assert entries[from..|entries|] == entries[from..];
  }

  /** The first position at or after `start`. */
  method PartitionPoint(entries: seq<Entry>, start: Key) returns (idx: nat)
    requires SortedEntries(entries)
    ensures idx <= |entries|
    ensures (forall e <- entries[..idx] :: e.key < start) && (forall e <- entries[idx..] :: start <= e.key)
  {
    idx := 0;
    while idx < |entries| && entries[idx].key < start
      invariant idx <= |entries|
      invariant forall i :: 0 <= i < idx ==> entries[i].key < start
    {
      idx := idx + 1;
    }
    forall e <- entries[idx..] ensures start <= e.key {
      var j :| idx <= j < |entries| && entries[j] == e;
    }
  }

  lemma LeafOfSorted(nodes: Nodes, all: seq<Entry>, left: seq<Entry>, leaf: Id, path: seq<Step>)
    requires AtLeaf(nodes, all, left, leaf, path) && SortedEntries(all)
    ensures SortedEntries(nodes[leaf].entries)
  {
    hide PathValid, Remaining, EntriesOf;
    var entries := nodes[leaf].entries;
    assert forall i :: 0 <= i < |entries| ==> entries[i] == all[|left| + i];
  }

  /** Nothing before `from` in the leaf, and nothing left of it, is in the range. */
  lemma ScanBegins(nodes: Nodes, all: seq<Entry>, left: seq<Entry>, leaf: Id, path: seq<Step>, from: nat, start: Key, end: Option<Key>)
    requires AtLeaf(nodes, all, left, leaf, path) && from <= |nodes[leaf].entries|
    requires (forall e <- left :: e.key < start) && forall e <- nodes[leaf].entries[..from] :: e.key < start
    ensures Select(all, start, end) == Select(nodes[leaf].entries[from..] + EntriesOf(nodes, Remaining(nodes, path, 0)), start, end)
  {
    hide PathValid, Remaining, EntriesOf, Select;
    var entries, right := nodes[leaf].entries, EntriesOf(nodes, Remaining(nodes, path, 0));
    assert all == (left + entries[..from]) + (entries[from..] + right);
    SelectConcat(left + entries[..from], entries[from..] + right, start, end);
    forall e <- left + entries[..from] ensures !InRange(e.key, Some(start), end) {
      assert e in left || e in entries[..from];
    }
    SelectNone(left + entries[..from], start, end);
  }

  /** Stopping at the first key at or past the end misses nothing. */
  lemma ScanStops(entries: seq<Entry>, right: seq<Entry>, from: nat, j: nat, start: Key, end: Key)
    requires from <= j < |entries| && end <= entries[j].key && SortedEntries(entries[from..] + right)
    ensures Select(entries[from..] + right, start, Some(end)) == Select(entries[from..j], start, Some(end))
  {
    hide Select;
    var rest := entries[from..] + right;
    assert rest == entries[from..j] + rest[j - from..];
    SelectConcat(entries[from..j], rest[j - from..], start, Some(end));
    PastTheEnd(rest, j - from, start, end);
  }

  lemma SortedTail(all: seq<Entry>, left: seq<Entry>, right: seq<Entry>)
    requires SortedEntries(all) && all == left + right
    ensures SortedEntries(right)
  {
    assert forall i :: 0 <= i < |right| ==> right[i] == all[|left| + i];
  }

  lemma TailOfLeaf(nodes: Nodes, all: seq<Entry>, left: seq<Entry>, leaf: Id, path: seq<Step>, from: nat)
    requires AtLeaf(nodes, all, left, leaf, path) && SortedEntries(all) && from <= |nodes[leaf].entries|
    ensures SortedEntries(nodes[leaf].entries[from..] + EntriesOf(nodes, Remaining(nodes, path, 0)))
  {
    hide PathValid, Remaining, EntriesOf, SortedEntries;
    var entries, right := nodes[leaf].entries, EntriesOf(nodes, Remaining(nodes, path, 0));
    assert all == (left + entries[..from]) + (entries[from..] + right);
    SortedTail(all, left + entries[..from], entries[from..] + right);
  }

  /** Moving to the next leaf. */
  lemma ScanMovesOn(nodes: Nodes, all: seq<Entry>, left: seq<Entry>, leaf: Id, path: seq<Step>, next: Id, path': seq<Step>, start: Key)
    requires AtLeaf(nodes, all, left, leaf, path) && next in nodes && nodes[next].Leaf? && PathValid(nodes, path', 0)
    requires [next] + Remaining(nodes, path', 0) == Remaining(nodes, path, 0)
    requires forall e <- EntriesOf(nodes, Remaining(nodes, path, 0)) :: start < e.key
    ensures AtLeaf(nodes, all, left + nodes[leaf].entries, next, path')
    ensures EntriesOf(nodes, Remaining(nodes, path, 0)) == nodes[next].entries[0..] + EntriesOf(nodes, Remaining(nodes, path', 0))
    ensures (forall e <- EntriesOf(nodes, Remaining(nodes, path', 0)) :: start < e.key) && forall e <- nodes[next].entries :: start < e.key
    ensures |Remaining(nodes, path', 0)| < |Remaining(nodes, path, 0)|
  {
    hide PathValid, Remaining;
    EntriesConcat(nodes, [next], Remaining(nodes, path', 0));
    assert [next][1..] == [];
  }

  /** The scan in progress: what is out and what the rest of the current leaf and the leaves after it still give. */
  ghost predicate Scanning(
    nodes: Nodes, all: seq<Entry>, left: seq<Entry>, leaf: Id, path: seq<Step>, from: nat, start: Key, end: Option<Key>, out: seq<KeyValue>)
  {
    && AtLeaf(nodes, all, left, leaf, path) && SortedEntries(all) && from <= |nodes[leaf].entries|
    && (forall e <- nodes[leaf].entries[from..] :: start <= e.key)
    && (forall e <- EntriesOf(nodes, Remaining(nodes, path, 0)) :: start < e.key)
    && Select(all, start, end) == out + Select(nodes[leaf].entries[from..] + EntriesOf(nodes, Remaining(nodes, path, 0)), start, end)
  }

  ghost function LeavesLeft(nodes: Nodes, path: seq<Step>): nat
    requires PathValid(nodes, path, 0)
  {
    |Remaining(nodes, path, 0)|
  }

  method BeginScan(store: NodeStore, root: Id, ghost h: nat, start: Key, ghost end: Option<Key>)
    returns (leaf: Id, path: seq<Step>, from: nat, ghost left: seq<Entry>)
    requires Valid(store.disk, root, h, None, None)
    ensures Scanning(store.disk, InOrder(store.disk, root, h), left, leaf, path, from, start, end, [])
  {
    hide Valid, InOrder, Select, PathValid, Remaining, EntriesOf, SortedEntries;
    ghost var nodes, all := store.disk, InOrder(store.disk, root, h);
    TreeInOrder(nodes, root, h, None, None);
    leaf, path, left := FindLeaf(store, root, h, start);
    LeafOfSorted(nodes, all, left, leaf, path);
    from := PartitionPoint(store.disk[leaf].entries, start);
    ScanBegins(nodes, all, left, leaf, path, from, start, end);
  }

  lemma ScanFacts(nodes: Nodes, all: seq<Entry>, left: seq<Entry>, leaf: Id, path: seq<Step>, from: nat, start: Key, end: Option<Key>, out: seq<KeyValue>)
    requires Scanning(nodes, all, left, leaf, path, from, start, end, out)
    ensures leaf in nodes && nodes[leaf].Leaf? && from <= |nodes[leaf].entries| && PathValid(nodes, path, 0)
    ensures forall e <- nodes[leaf].entries[from..] :: start <= e.key
  {
  }

  /** The end of the range was met in this leaf. */
  lemma ScanMeetsEnd(
    nodes: Nodes, all: seq<Entry>, left: seq<Entry>, leaf: Id, path: seq<Step>, from: nat, start: Key, end: Option<Key>,
    out: seq<KeyValue>, j: nat, out': seq<KeyValue>)
    requires Scanning(nodes, all, left, leaf, path, from, start, end, out)
    requires from <= j < |nodes[leaf].entries| && end.Some? && end.value <= nodes[leaf].entries[j].key
    requires out' == out + Select(nodes[leaf].entries[from..j], start, end)
    ensures Select(all, start, end) == out'
  {
    hide Select, PathValid, Remaining, EntriesOf, SortedEntries;
    TailOfLeaf(nodes, all, left, leaf, path, from);
    ScanStops(nodes[leaf].entries, EntriesOf(nodes, Remaining(nodes, path, 0)), from, j, start, end.value);
  }

  /** There is no leaf to the right. */
  lemma ScanIsOver(
    nodes: Nodes, all: seq<Entry>, left: seq<Entry>, leaf: Id, path: seq<Step>, from: nat, start: Key, end: Option<Key>,
    out: seq<KeyValue>, out': seq<KeyValue>)
    requires Scanning(nodes, all, left, leaf, path, from, start, end, out) && Remaining(nodes, path, 0) == []
    requires out' == out + Select(nodes[leaf].entries[from..], start, end)
    ensures Select(all, start, end) == out'
  {
    hide Select, PathValid, Remaining, SortedEntries;
    NothingRight(nodes);
    assert nodes[leaf].entries[from..] + [] == nodes[leaf].entries[from..];
  }

  /** On to the next leaf. */
  lemma ScanGoesOn(
    nodes: Nodes, all: seq<Entry>, left: seq<Entry>, leaf: Id, path: seq<Step>, from: nat, start: Key, end: Option<Key>,
    out: seq<KeyValue>, out': seq<KeyValue>, next: Id, path': seq<Step>)
    requires Scanning(nodes, all, left, leaf, path, from, start, end, out)
    requires out' == out + Select(nodes[leaf].entries[from..], start, end)
    requires next in nodes && nodes[next].Leaf? && PathValid(nodes, path', 0) && [next] + Remaining(nodes, path', 0) == Remaining(nodes, path, 0)
    ensures Scanning(nodes, all, left + nodes[leaf].entries, next, path', 0, start, end, out')
    ensures LeavesLeft(nodes, path') < LeavesLeft(nodes, path)
  {
    hide Select, PathValid, Remaining, EntriesOf, SortedEntries;
    ScanMovesOn(nodes, all, left, leaf, path, next, path', start);
    SelectConcat(nodes[leaf].entries[from..], EntriesOf(nodes, Remaining(nodes, path, 0)), start, end);
    assert nodes[next].entries[0..] == nodes[next].entries;
  }

  method RangeEntries(store: NodeStore, root: Id, ghost h: nat, start: Key, end: Option<Key>) returns (out: seq<KeyValue>)
    requires Valid(store.disk, root, h, None, None)
    ensures out == Select(InOrder(store.disk, root, h), start, end)
  {
    hide Valid, InOrder, Select, PathValid, Remaining, Scanning, LeavesLeft;
    ghost var nodes, all := store.disk, InOrder(store.disk, root, h);
    var leaf, path, from;
    ghost var left;
    leaf, path, from, left := BeginScan(store, root, h, start, end);
    out := [];
    ScanFacts(nodes, all, left, leaf, path, from, start, end, out);
    while true
      invariant PathValid(nodes, path, 0)
      invariant Scanning(nodes, all, left, leaf, path, from, start, end, out)
      decreases LeavesLeft(nodes, path)
    {
      ScanFacts(nodes, all, left, leaf, path, from, start, end, out);
      ghost var before := out;
      var stop;
      out, stop := ScanLeaf(store.disk[leaf].entries, from, start, end, out);
      if stop.Some? {
        ScanMeetsEnd(nodes, all, left, leaf, path, from, start, end, before, stop.value, out);
        return;
      }
      var next, path' := NextLeaf(store, path);
      if next.None? {
        ScanIsOver(nodes, all, left, leaf, path, from, start, end, before, out);
        return;
      }
      ScanGoesOn(nodes, all, left, leaf, path, from, start, end, before, out, next.value, path');
      left := left + store.disk[leaf].entries;
      leaf, path, from := next.value, path', 0;
    }
  }

  lemma NothingRight(nodes: Nodes)
    ensures EntriesOf(nodes, []) == []
  {
  }

  lemma {:induction false} SelectHas(entries: seq<Entry>, start: Key, end: Option<Key>, kv: KeyValue)
    ensures kv in Select(entries, start, end) <==> InRange(kv.key, Some(start), end) && Entry(kv.key, Some(kv.value)) in entries
  {
    if entries != [] {
      var n := |entries| - 1;
      SelectHas(entries[..n], start, end, kv);
      assert entries == entries[..n] + [entries[n]];
    }
  }

  lemma {:induction false} SelectIsSorted(entries: seq<Entry>, start: Key, end: Option<Key>)
    requires SortedEntries(entries)
    ensures forall i, j :: 0 <= i < j < |Select(entries, start, end)| ==> Select(entries, start, end)[i].key < Select(entries, start, end)[j].key
  {
    if entries != [] {
      var n := |entries| - 1;
      SelectIsSorted(entries[..n], start, end);
      var init := Select(entries[..n], start, end);
      forall i | 0 <= i < |init| ensures init[i].key < entries[n].key {
        SelectHas(entries[..n], start, end, init[i]);
        var j :| 0 <= j < n && entries[j] == Entry(init[i].key, Some(init[i].value));
      }
    }
  }

  /** A range read at a root lists, in increasing order of keys and each once, exactly the pairs that searching
      at that root finds within the range. */
  lemma RangeIsExact(nodes: Nodes, root: Id, h: nat, start: Key, end: Option<Key>)
    requires Valid(nodes, root, h, None, None)
    ensures var out := Select(InOrder(nodes, root, h), start, end);
            && (forall i, j :: 0 <= i < j < |out| ==> out[i].key < out[j].key)
            && forall k, v :: KeyValue(k, v) in out <==> InRange(k, Some(start), end) && Holds(nodes, root, h, k, v)
  {
    hide Valid, Holds, InOrder, Select;
    var all := InOrder(nodes, root, h);
    TreeInOrder(nodes, root, h, None, None);
    SelectIsSorted(all, start, end);
    forall k, v ensures KeyValue(k, v) in Select(all, start, end) <==> InRange(k, Some(start), end) && Holds(nodes, root, h, k, v) {
      SelectHas(all, start, end, KeyValue(k, v));
      InOrderIsWhatHolds(nodes, root, h, None, None, k, v);
    }
  }

  // ---- one page of a range --------------------------------------------------------------------------------------

  /** Scans one leaf for a page, up to position `j`: its end, the end of the range, or a full page. */
  method ScanLeafPage(
    entries: seq<Entry>, from: nat, start: Key, end: Option<Key>, offset: nat, limit: nat, skip0: nat, out0: seq<KeyValue>, ghost full0: seq<KeyValue>)
    returns (out: seq<KeyValue>, skip: nat, finished: bool, ghost j: nat, ghost full: seq<KeyValue>)
    requires from <= |entries| && forall e <- entries[from..] :: start <= e.key
    requires Paged(full0, offset, limit, skip0, out0) && |out0| < limit
    ensures from <= j <= |entries| && full == full0 + Select(entries[from..j], start, end) && Paged(full, offset, limit, skip, out)
    ensures !finished ==> j == |entries| && |out| < limit
    ensures finished ==> |out| >= limit || (j < |entries| && end.Some? && end.value <= entries[j].key)
  {
    hide Select, Paged;
    out, skip, finished, j, full := out0, skip0, false, from, full0;
    NothingSelected(start, end);
    assert entries[from..from] == [];
    for i := from to |entries|
      invariant j == i && |out| < limit && !finished
      invariant full == full0 + Select(entries[from..i], start, end) && Paged(full, offset, limit, skip, out)
    {
      var e := entries[i];
      if end.Some? && e.key >= end.value {
        finished := true;
        return;
      }
      assert entries[from..][i - from] == e;
      assert entries[from..i + 1] == entries[from..i] + [e];
      SelectConcat(entries[from..i], [e], start, end);
      SelectFirst(e, start, end);
      j := i + 1;
      if e.value.None? {
        continue;
      }
      var kv := KeyValue(e.key, e.value.value);
      PagedStep(full, kv, offset, limit, skip, out);
      full := full + [kv];
      if skip > 0 {
        skip := skip - 1;
        continue;
      }
      out := out + [kv];
      if |out| >= limit {
        finished := true;
        return;
      }
    }
  }

  /** The page is full, or the end of the range was met. */
  lemma PageEnds(
    nodes: Nodes, all: seq<Entry>, left: seq<Entry>, leaf: Id, path: seq<Step>, from: nat, start: Key, end: Option<Key>,
    full: seq<KeyValue>, j: nat, full': seq<KeyValue>, offset: nat, limit: nat, skip: nat, out: seq<KeyValue>)
    requires Scanning(nodes, all, left, leaf, path, from, start, end, full) && from <= j <= |nodes[leaf].entries|
    requires full' == full + Select(nodes[leaf].entries[from..j], start, end) && Paged(full', offset, limit, skip, out)
    requires |out| >= limit || (j < |nodes[leaf].entries| && end.Some? && end.value <= nodes[leaf].entries[j].key)
    ensures out == Page(Select(all, start, end), offset, limit)
  {
    hide Select, PathValid, Remaining, EntriesOf, SortedEntries, Page;
    if |out| >= limit {
      var right := EntriesOf(nodes, Remaining(nodes, path, 0));
      var more := SelectPrefix(nodes[leaf].entries, right, from, j, start, end);
      assert full + (Select(nodes[leaf].entries[from..j], start, end) + more) == full' + more;
      PageIsFull(full', more, offset, limit, skip, out);
    } else {
      ScanMeetsEnd(nodes, all, left, leaf, path, from, start, end, full, j, full');
    }
  }

  lemma SelectPrefix(entries: seq<Entry>, right: seq<Entry>, from: nat, j: nat, start: Key, end: Option<Key>) returns (more: seq<KeyValue>)
    requires from <= j <= |entries|
    ensures Select(entries[from..] + right, start, end) == Select(entries[from..j], start, end) + more
  {
    var rest := entries[from..] + right;
    assert rest == entries[from..j] + rest[j - from..];
    SelectConcat(entries[from..j], rest[j - from..], start, end);
    more := Select(rest[j - from..], start, end);
  }

  /** A page read forward at a root is that slice of the whole range. */
  method RangeEntriesPage(store: NodeStore, root: Id, ghost h: nat, start: Key, end: Option<Key>, offset: nat, limit: nat) returns (out: seq<KeyValue>)
    requires Valid(store.disk, root, h, None, None)
    ensures out == Page(Select(InOrder(store.disk, root, h), start, end), offset, limit)
  {
    hide Valid, InOrder, Select, PathValid, Remaining, Scanning, LeavesLeft, Page;
    ghost var nodes, all := store.disk, InOrder(store.disk, root, h);
    out := [];
    EmptyPage(Select(all, start, end), offset);
    if limit == 0 {
      return;
    }
    var leaf, path;
    var from: nat;
    ghost var left;
    leaf, path, from, left := BeginScan(store, root, h, start, end);
    var skip := offset;
    ghost var full: seq<KeyValue> := [];
    PageStarts<KeyValue>(offset, limit);
    ScanFacts(nodes, all, left, leaf, path, from, start, end, full);
    while true
      invariant PathValid(nodes, path, 0)
      invariant Scanning(nodes, all, left, leaf, path, from, start, end, full)
      invariant Paged(full, offset, limit, skip, out) && |out| < limit
      decreases LeavesLeft(nodes, path)
    {
      ScanFacts(nodes, all, left, leaf, path, from, start, end, full);
      var entries := store.disk[leaf].entries;
      var finished;
      ghost var j, full';
      out, skip, finished, j, full' := ScanLeafPage(entries, from, start, end, offset, limit, skip, out, full);
      if finished {
        PageEnds(nodes, all, left, leaf, path, from, start, end, full, j, full', offset, limit, skip, out);
        return;
      }
      assert entries[from..j] == entries[from..];
      var next, path' := NextLeaf(store, path);
      if next.None? {
        ScanIsOver(nodes, all, left, leaf, path, from, start, end, full, full');
        return;
      }
      ScanGoesOn(nodes, all, left, leaf, path, from, start, end, full, full', next.value, path');
      left := left + entries;
      leaf, path, from, full := next.value, path', 0, full';
    }
  }
}
