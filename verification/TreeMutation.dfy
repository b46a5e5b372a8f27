/** Writing one key: nodes along the path are copied, full ones split in half, and every older root keeps its
    meaning. */
module TreeMutation {
  import opened Collections
  import opened NodeTree

  // ---- one leaf ----------------------------------------------------------------------------------------

  /** What holds for `k` after writing `value` under `key`, given what held before. */
  predicate After(before: bool, key: Key, value: Option<Value>, k: Key, v: Value) {
    if k == key then value == Some(v) else before
  }

  /** `r` is `entries` with `value` under `key`, and without deletion marks if anything changed. */
  ghost predicate Updated(entries: seq<Entry>, key: Key, value: Option<Value>, r: seq<Entry>) {
    && SortedEntries(r)
    && |r| <= |entries| + 1
    && (forall e <- r :: e.key == key || e in entries)
    && forall k, v :: Entry(k, Some(v)) in r <==> After(Entry(k, Some(v)) in entries, key, value, k, v)
  }

  method Search(entries: seq<Entry>, key: Key) returns (found: bool, idx: nat)
    requires SortedEntries(entries)
    ensures found ==> idx < |entries| && entries[idx].key == key
    ensures !found ==> idx <= |entries| && (forall i :: 0 <= i < idx ==> entries[i].key < key) && (forall i :: idx <= i < |entries| ==> key < entries[i].key)
  {
    var lo, hi := 0, |entries|;
    while lo < hi
      invariant 0 <= lo <= hi <= |entries|
      invariant forall i :: 0 <= i < lo ==> entries[i].key < key
      invariant forall i :: hi <= i < |entries| ==> key < entries[i].key
    {
      var mid := (lo + hi) / 2;
      if entries[mid].key == key {
        return true, mid;
      }
      if key < entries[mid].key {
        hi := mid;
      } else {
        lo := mid + 1;
      }
    }
    return false, lo;
  }

  lemma ReplaceUpdates(entries: seq<Entry>, idx: nat, next: Value)
    requires SortedEntries(entries) && idx < |entries|
    ensures Updated(entries, entries[idx].key, Some(next), entries[idx := Entry(entries[idx].key, Some(next))])
  {
    var key := entries[idx].key;
    var r := entries[idx := Entry(key, Some(next))];
    forall k, v ensures Entry(k, Some(v)) in r <==> After(Entry(k, Some(v)) in entries, key, Some(next), k, v) {
      if Entry(k, Some(v)) in entries && k != key {
        var i :| 0 <= i < |entries| && entries[i] == Entry(k, Some(v));
        assert r[i] == entries[i];
      }
      assert r[idx] == Entry(key, Some(next));
    }
  }

  lemma RemoveUpdates(entries: seq<Entry>, idx: nat)
    requires SortedEntries(entries) && idx < |entries|
    ensures Updated(entries, entries[idx].key, None, entries[..idx] + entries[idx + 1..])
  {
    var key := entries[idx].key;
    var r := entries[..idx] + entries[idx + 1..];
    forall k, v ensures Entry(k, Some(v)) in r <==> After(Entry(k, Some(v)) in entries, key, None, k, v) {
      if Entry(k, Some(v)) in entries && k != key {
        var i :| 0 <= i < |entries| && entries[i] == Entry(k, Some(v));
        assert r[if i < idx then i else i - 1] == entries[i];
      }
    }
  }

  lemma InsertUpdates(entries: seq<Entry>, idx: nat, key: Key, next: Value)
    requires SortedEntries(entries) && idx <= |entries|
    requires (forall i :: 0 <= i < idx ==> entries[i].key < key) && (forall i :: idx <= i < |entries| ==> key < entries[i].key)
    ensures Updated(entries, key, Some(next), entries[..idx] + [Entry(key, Some(next))] + entries[idx..])
  {
    var e := Entry(key, Some(next));
    var r := entries[..idx] + [e] + entries[idx..];
    forall k, v ensures Entry(k, Some(v)) in r <==> After(Entry(k, Some(v)) in entries, key, Some(next), k, v) {
      if Entry(k, Some(v)) in entries && k != key {
        var i :| 0 <= i < |entries| && entries[i] == Entry(k, Some(v));
        assert r[if i < idx then i else i + 1] == entries[i];
      }
      assert r[idx] == e;
    }
  }

  lemma AbsentUpdates(entries: seq<Entry>, idx: nat, key: Key)
    requires SortedEntries(entries) && idx <= |entries|
    requires (forall i :: 0 <= i < idx ==> entries[i].key < key) && (forall i :: idx <= i < |entries| ==> key < entries[i].key)
    ensures Updated(entries, key, None, entries)
  {
  }

  function Compact(entries: seq<Entry>): seq<Entry> {
    if entries == [] then []
    else if entries[|entries| - 1].value.Some? then Compact(entries[..|entries| - 1]) + [entries[|entries| - 1]]
    else Compact(entries[..|entries| - 1])
  }

  lemma {:induction false} CompactKeeps(entries: seq<Entry>)
    requires SortedEntries(entries)
    ensures SortedEntries(Compact(entries)) && |Compact(entries)| <= |entries|
    ensures forall e :: e in Compact(entries) <==> e in entries && e.value.Some?
  {
    if entries != [] {
      var n := |entries| - 1;
      CompactKeeps(entries[..n]);
      assert entries == entries[..n] + [entries[n]];
    }
  }

  /** The new entries, and whether they differ. */
  method UpdateLeaf(entries: seq<Entry>, key: Key, value: Option<Value>) returns (r: seq<Entry>, changed: bool)
    requires SortedEntries(entries)
    ensures Updated(entries, key, value, r)
    ensures changed <==> r != entries
    ensures forall e <- r :: e.value.Some?
  {
    hide SortedEntries, Updated, Compact;
    r, changed := entries, false;
    var found, idx := Search(entries, key);
    if found {
      match value
      case Some(next) =>
        ReplaceUpdates(entries, idx, next);
        if entries[idx].value != Some(next) {
          changed := true;
        }
        r := entries[idx := Entry(key, Some(next))];
        assert entries[idx].value == Some(next) ==> r == entries;
      case None =>
        RemoveUpdates(entries, idx);
        r, changed := entries[..idx] + entries[idx + 1..], true;
    } else if value.Some? {
      InsertUpdates(entries, idx, key, value.value);
      r, changed := entries[..idx] + [Entry(key, value)] + entries[idx..], true;
    } else {
      AbsentUpdates(entries, idx, key);
    }
    assert changed <==> r != entries;
    if exists e <- r :: e.value.None? {
      CompactUpdates(entries, key, value, r);
      MarkIsOld(entries, key, value, r);
      r, changed := Compact(r), true;
    }
  }

  /** A deletion mark in the result was there before. */
  lemma MarkIsOld(entries: seq<Entry>, key: Key, value: Option<Value>, r: seq<Entry>)
    requires Updated(entries, key, value, r) && (exists e <- r :: e.value.None?) && (forall e <- r :: e.value.None? ==> e in entries)
    ensures Compact(r) != entries && forall e <- Compact(r) :: e.value.Some?
  {
    CompactKeeps(r);
  }

  lemma CompactUpdates(entries: seq<Entry>, key: Key, value: Option<Value>, r: seq<Entry>)
    requires Updated(entries, key, value, r)
    ensures Updated(entries, key, value, Compact(r))
  {
    CompactKeeps(r);
  }

  // ---- outcomes -------------------------------------------------------------------------------------------

  datatype Outcome = One(id: Id) | Split(left: Id, right: Id, separator: Key)

  /** The outcome stands in for a node of height `h` with these bounds. */
  ghost predicate OutcomeValid(nodes: Nodes, out: Outcome, h: nat, lo: Option<Key>, hi: Option<Key>) {
    match out
    case One(id) => Valid(nodes, id, h, lo, hi)
    case Split(left, right, separator) =>
      && Above(separator, lo) && InRange(separator, lo, hi)
      && Valid(nodes, left, h, lo, Some(separator)) && Valid(nodes, right, h, Some(separator), hi)
  }

  ghost predicate OutcomeHolds(nodes: Nodes, out: Outcome, h: nat, k: Key, v: Value) {
    match out
    case One(id) => Holds(nodes, id, h, k, v)
    case Split(left, right, separator) => Holds(nodes, if k < separator then left else right, h, k, v)
  }

  /** In `more`, the outcome holds what `id` held in `nodes`, with `value` under `key`. */
  ghost predicate Writes(
    nodes: Nodes, id: Id, more: Nodes, out: Outcome, h: nat, lo: Option<Key>, hi: Option<Key>, key: Key, value: Option<Value>)
  {
    forall k, v :: InRange(k, lo, hi) ==>
      (OutcomeHolds(more, out, h, k, v) <==> After(Holds(nodes, id, h, k, v), key, value, k, v))
  }

  /** The same for the keys and children of an inner node. */
  ghost predicate WritesBelow(
    nodes: Nodes, keys: seq<Key>, children: seq<Id>, more: Nodes, keys': seq<Key>, children': seq<Id>, h: nat,
    lo: Option<Key>, hi: Option<Key>, key: Key, value: Option<Value>)
  {
    forall k, v :: InRange(k, lo, hi) ==>
      (HoldsBelow(more, keys', children', h, k, v) <==> After(HoldsBelow(nodes, keys, children, h, k, v), key, value, k, v))
  }

  lemma {:induction false} IndexExists(keys: seq<Key>, k: Key) returns (j: nat)
    requires SortedKeys(keys)
    ensures IsChildIndex(keys, k, j)
  {
    if keys == [] || k < keys[0] {
      j := 0;
    } else {
      var i := IndexExists(keys[1..], k);
      j := i + 1;
      forall n | j <= n < |keys| ensures k < keys[n] {
        assert keys[n] == keys[1..][n - 1];
      }
      forall n | 0 <= n < j ensures keys[n] <= k {
        assert n > 0 ==> keys[n] == keys[1..][n - 1];
      }
    }
  }

  // ---- a child replaced by its outcome --------------------------------------------------------------------

  lemma ReplaceChildValid(
    nodes: Nodes, more: Nodes, keys: seq<Key>, children: seq<Id>, h: nat, lo: Option<Key>, hi: Option<Key>, idx: nat, id: Id)
    requires Extends(nodes, more) && ValidChildren(nodes, keys, children, h, lo, hi) && idx < |children|
    requires Valid(more, id, h, Low(keys, lo, idx), High(keys, hi, idx))
    ensures ValidChildren(more, keys, children[idx := id], h, lo, hi)
  {
    forall i | 0 <= i < |children| ensures Valid(more, children[idx := id][i], h, Low(keys, lo, i), High(keys, hi, i)) {
      if i != idx {
        ValidFrame(nodes, more, children[i], h, Low(keys, lo, i), High(keys, hi, i));
      }
    }
  }

  lemma ReplaceChildWrites(
    nodes: Nodes, more: Nodes, keys: seq<Key>, children: seq<Id>, h: nat, lo: Option<Key>, hi: Option<Key>, idx: nat, id: Id,
    key: Key, value: Option<Value>)
    requires Extends(nodes, more) && ValidKeys(keys, children, lo, hi) && ValidChildren(nodes, keys, children, h, lo, hi)
    requires IsChildIndex(keys, key, idx) && InRange(key, lo, hi)
    requires Writes(nodes, children[idx], more, One(id), h, Low(keys, lo, idx), High(keys, hi, idx), key, value)
    ensures WritesBelow(nodes, keys, children, more, keys, children[idx := id], h, lo, hi, key, value)
  {
    hide Holds, Valid, HoldsBelow, IsChildIndex;
    IndexFits(keys, key, idx);
    forall k, v | InRange(k, lo, hi)
      ensures HoldsBelow(more, keys, children[idx := id], h, k, v)
              <==> After(HoldsBelow(nodes, keys, children, h, k, v), key, value, k, v)
    {
      var j := IndexExists(keys, k);
      IndexFits(keys, k, j);
      HoldsAt(nodes, keys, children, h, k, v, j);
      HoldsAt(more, keys, children[idx := id], h, k, v, j);
      IndexInRange(keys, k, j, lo, hi);
      if j != idx {
        HoldsFrame(nodes, more, children[j], h, Low(keys, lo, j), High(keys, hi, j), k, v);
        IndexOf(keys, key, idx, k, j);
      } else {
        assert OutcomeHolds(more, One(id), h, k, v) <==> Holds(more, id, h, k, v);
      }
    }
  }

  lemma IndexFits(keys: seq<Key>, k: Key, j: nat)
    requires IsChildIndex(keys, k, j)
    ensures j <= |keys|
  {
  }

  lemma IndexOf(keys: seq<Key>, key: Key, i: nat, k: Key, j: nat)
    requires IsChildIndex(keys, key, i) && IsChildIndex(keys, k, j) && i != j
    ensures k != key
  {
    if k == key {
      IndexIsUnique(keys, k, i, j);
    }
  }

  function SplitKeys(keys: seq<Key>, idx: nat, separator: Key): seq<Key>
    requires idx <= |keys|
  {
    keys[..idx] + [separator] + keys[idx..]
  }

  function SplitChildren(children: seq<Id>, idx: nat, left: Id, right: Id): seq<Id>
    requires idx < |children|
  {
    children[..idx] + [left, right] + children[idx + 1..]
  }

  ghost predicate Between(keys: seq<Key>, idx: nat, lo: Option<Key>, hi: Option<Key>, separator: Key) {
    Above(separator, Low(keys, lo, idx)) && InRange(separator, Low(keys, lo, idx), High(keys, hi, idx))
  }

  lemma SplitKeysValid(keys: seq<Key>, children: seq<Id>, lo: Option<Key>, hi: Option<Key>, idx: nat, left: Id, right: Id, separator: Key)
    requires ValidKeys(keys, children, lo, hi) && idx <= |keys| && Between(keys, idx, lo, hi, separator)
    ensures ValidKeys(SplitKeys(keys, idx, separator), SplitChildren(children, idx, left, right), lo, hi)
  {
    var keys' := SplitKeys(keys, idx, separator);
    assert idx > 0 ==> keys[idx - 1] < separator && keys[idx - 1] in keys;
    assert idx < |keys| ==> separator < keys[idx] && keys[idx] in keys;
    forall i, j | 0 <= i < j < |keys'| ensures keys'[i] < keys'[j] {
      assert i < idx ==> keys'[i] == keys[i];
      assert i > idx ==> keys'[i] == keys[i - 1];
      assert j < idx ==> keys'[j] == keys[j];
      assert j > idx ==> keys'[j] == keys[j - 1];
    }
    forall k <- keys' ensures Above(k, lo) && InRange(k, lo, hi) {
      assert k == separator || k in keys;
    }
  }

  lemma SplitChildValid(
    nodes: Nodes, more: Nodes, keys: seq<Key>, children: seq<Id>, h: nat, lo: Option<Key>, hi: Option<Key>, idx: nat,
    left: Id, right: Id, separator: Key)
    requires Extends(nodes, more) && |children| == |keys| + 1 && ValidChildren(nodes, keys, children, h, lo, hi) && idx < |children|
    requires Valid(more, left, h, Low(keys, lo, idx), Some(separator)) && Valid(more, right, h, Some(separator), High(keys, hi, idx))
    ensures ValidChildren(more, SplitKeys(keys, idx, separator), SplitChildren(children, idx, left, right), h, lo, hi)
  {
    hide Valid;
    var keys', children' := SplitKeys(keys, idx, separator), SplitChildren(children, idx, left, right);
    forall i | 0 <= i < |children'| ensures Valid(more, children'[i], h, Low(keys', lo, i), High(keys', hi, i)) {
      if i < idx {
        ValidFrame(nodes, more, children[i], h, Low(keys, lo, i), High(keys, hi, i));
      } else if i > idx + 1 {
        assert children'[i] == children[i - 1];
        ValidFrame(nodes, more, children[i - 1], h, Low(keys, lo, i - 1), High(keys, hi, i - 1));
      }
    }
  }

  function SplitIndex(idx: nat, separator: Key, k: Key, j: nat): nat {
    if j < idx || (j == idx && k < separator) then j else j + 1
  }

  lemma SplitIndexIs(keys: seq<Key>, lo: Option<Key>, hi: Option<Key>, idx: nat, separator: Key, k: Key, j: nat)
    requires SortedKeys(keys) && idx <= |keys| && Between(keys, idx, lo, hi, separator) && IsChildIndex(keys, k, j)
    ensures IsChildIndex(SplitKeys(keys, idx, separator), k, SplitIndex(idx, separator, k, j))
  {
    var keys' := SplitKeys(keys, idx, separator);
    var j' := SplitIndex(idx, separator, k, j);
    assert idx > 0 ==> keys[idx - 1] < separator;
    assert idx < |keys| ==> separator < keys[idx];
    forall i | 0 <= i < j' ensures keys'[i] <= k {
      assert i > idx ==> keys'[i] == keys[i - 1];
      assert j > idx ==> keys[idx] <= k;
    }
    forall i | j' <= i < |keys'| ensures k < keys'[i] {
      assert i > idx ==> keys'[i] == keys[i - 1];
      assert j < idx ==> k < keys[idx - 1];
    }
  }

  lemma SplitChildWrites(
    nodes: Nodes, more: Nodes, keys: seq<Key>, children: seq<Id>, h: nat, lo: Option<Key>, hi: Option<Key>, idx: nat,
    left: Id, right: Id, separator: Key, key: Key, value: Option<Value>)
    requires Extends(nodes, more) && ValidKeys(keys, children, lo, hi) && ValidChildren(nodes, keys, children, h, lo, hi)
    requires IsChildIndex(keys, key, idx) && InRange(key, lo, hi) && Between(keys, idx, lo, hi, separator)
    requires Writes(nodes, children[idx], more, Split(left, right, separator), h, Low(keys, lo, idx), High(keys, hi, idx), key, value)
    ensures WritesBelow(nodes, keys, children, more, SplitKeys(keys, idx, separator), SplitChildren(children, idx, left, right), h, lo, hi, key, value)
  {
    hide Holds, Valid, HoldsBelow, IsChildIndex, Between, SplitKeys;
    IndexFits(keys, key, idx);
    var keys', children' := SplitKeys(keys, idx, separator), SplitChildren(children, idx, left, right);
    forall k, v | InRange(k, lo, hi)
      ensures HoldsBelow(more, keys', children', h, k, v) <==> After(HoldsBelow(nodes, keys, children, h, k, v), key, value, k, v)
    {
      var j := IndexExists(keys, k);
      var j' := SplitIndex(idx, separator, k, j);
      IndexFits(keys, k, j);
      HoldsAt(nodes, keys, children, h, k, v, j);
      SplitIndexIs(keys, lo, hi, idx, separator, k, j);
      HoldsAt(more, keys', children', h, k, v, j');
      IndexInRange(keys, k, j, lo, hi);
      if j != idx {
        assert children'[j'] == children[j];
        HoldsFrame(nodes, more, children[j], h, Low(keys, lo, j), High(keys, hi, j), k, v);
        IndexOf(keys, key, idx, k, j);
      } else {
        assert children'[j'] == if k < separator then left else right;
        assert OutcomeHolds(more, Split(left, right, separator), h, k, v) <==> Holds(more, if k < separator then left else right, h, k, v);
      }
    }
  }

  // ---- an inner node cut in half ------------------------------------------------------------------------

  lemma HalvesValid(nodes: Nodes, keys: seq<Key>, children: seq<Id>, h: nat, lo: Option<Key>, hi: Option<Key>, mid: nat)
    requires ValidKeys(keys, children, lo, hi) && ValidChildren(nodes, keys, children, h, lo, hi) && mid < |keys|
    ensures var separator := keys[mid];
            && Above(separator, lo) && InRange(separator, lo, hi)
            && ValidKeys(keys[..mid], children[..mid + 1], lo, Some(separator))
            && ValidChildren(nodes, keys[..mid], children[..mid + 1], h, lo, Some(separator))
            && ValidKeys(keys[mid + 1..], children[mid + 1..], Some(separator), hi)
            && ValidChildren(nodes, keys[mid + 1..], children[mid + 1..], h, Some(separator), hi)
  {
    hide Valid;
    var separator := keys[mid];
    assert separator in keys;
    var l, r, cl, cr := keys[..mid], keys[mid + 1..], children[..mid + 1], children[mid + 1..];
    forall i | 0 <= i < |cl| ensures Valid(nodes, cl[i], h, Low(l, lo, i), High(l, Some(separator), i)) {
      assert cl[i] == children[i];
      assert Low(l, lo, i) == Low(keys, lo, i) && High(l, Some(separator), i) == High(keys, hi, i);
    }
    forall i | 0 <= i < |cr| ensures Valid(nodes, cr[i], h, Low(r, Some(separator), i), High(r, hi, i)) {
      assert cr[i] == children[mid + 1 + i];
      assert Low(r, Some(separator), i) == Low(keys, lo, mid + 1 + i) && High(r, hi, i) == High(keys, hi, mid + 1 + i);
    }
    forall k <- l ensures Above(k, lo) && InRange(k, lo, Some(separator)) {
      assert k in keys;
    }
    forall k <- r ensures Above(k, Some(separator)) && InRange(k, Some(separator), hi) {
      assert k in keys;
    }
  }

  lemma HalvesHold(nodes: Nodes, keys: seq<Key>, children: seq<Id>, h: nat, mid: nat, k: Key, v: Value)
    requires SortedKeys(keys) && |children| == |keys| + 1 && mid < |keys|
    ensures HoldsBelow(nodes, keys, children, h, k, v) <==>
            if k < keys[mid] then HoldsBelow(nodes, keys[..mid], children[..mid + 1], h, k, v)
            else HoldsBelow(nodes, keys[mid + 1..], children[mid + 1..], h, k, v)
  {
    hide HoldsBelow, Holds;
    var j := IndexExists(keys, k);
    HoldsAt(nodes, keys, children, h, k, v, j);
    if k < keys[mid] {
      assert j <= mid;
      assert IsChildIndex(keys[..mid], k, j);
      HoldsAt(nodes, keys[..mid], children[..mid + 1], h, k, v, j);
    } else {
      assert j > mid;
      HalfIndex(keys, k, j, mid);
      HoldsAt(nodes, keys[mid + 1..], children[mid + 1..], h, k, v, j - mid - 1);
    }
  }

  lemma HalfIndex(keys: seq<Key>, k: Key, j: nat, mid: nat)
    requires IsChildIndex(keys, k, j) && mid < j
    ensures IsChildIndex(keys[mid + 1..], k, j - mid - 1)
  {
    var r := keys[mid + 1..];
    forall i | j - mid - 1 <= i < |r| ensures k < r[i] {
      assert r[i] == keys[mid + 1 + i];
    }
  }
}
