/** Listing the ids of a balance sheet by seeking from one to the next, past all stored versions of each. */
module SkipScan {
  import opened Collections

  const ID_LENGTH := 32
  const LAST_BYTE: Byte := 0xff

  // ---- the order of keys ---------------------------------------------------------------------------

  predicate Leq(a: Bytes, b: Bytes) {
    a == [] || (b != [] && (a[0] < b[0] || (a[0] == b[0] && Leq(a[1..], b[1..]))))
  }

  predicate Less(a: Bytes, b: Bytes) {
    !Leq(b, a)
  }

  lemma {:induction false} LeqRefl(a: Bytes)
    ensures Leq(a, a)
  {
    if a != [] {
      LeqRefl(a[1..]);
    }
  }

  lemma {:induction false} LeqTotal(a: Bytes, b: Bytes)
    ensures Leq(a, b) || Leq(b, a)
  {
    if a != [] && b != [] {
      LeqTotal(a[1..], b[1..]);
    }
  }

  lemma {:induction false} LeqAntisymmetric(a: Bytes, b: Bytes)
    requires Leq(a, b) && Leq(b, a)
    ensures a == b
  {
    if a != [] {
      LeqAntisymmetric(a[1..], b[1..]);
      assert a == [a[0]] + a[1..] && b == [b[0]] + b[1..];
    }
  }

  lemma {:induction false} LeqTransitive(a: Bytes, b: Bytes, c: Bytes)
    requires Leq(a, b) && Leq(b, c)
    ensures Leq(a, c)
  {
    if a != [] && a[0] == b[0] == c[0] {
      LeqTransitive(a[1..], b[1..], c[1..]);
    }
  }

  /** The order is that of the first place where the keys differ, an end counting as less than any byte. */
  lemma {:induction false} LessIsLexicographic(a: Bytes, b: Bytes)
    ensures Less(a, b) <==> exists k: nat :: DiffersAt(a, b, k) && (k == |a| || (k < |b| && a[k] < b[k]))
  {
    if a == [] || b == [] || a[0] != b[0] {
      assert b != [] && (a == [] || a[0] != b[0]) ==> DiffersAt(a, b, 0);
      assert a != [] && b == [] ==> DiffersAt(a, b, 0);
    } else {
      LessIsLexicographic(a[1..], b[1..]);
      forall k: nat ensures DiffersAt(a, b, k + 1) <==> DiffersAt(a[1..], b[1..], k) {
        DiffersLater(a, b, k);
      }
      if k: nat :| DiffersAt(a, b, k) && (k == |a| || (k < |b| && a[k] < b[k])) {
        assert k > 0 && DiffersAt(a[1..], b[1..], k - 1);
      }
      if k: nat :| DiffersAt(a[1..], b[1..], k) && (k == |a[1..]| || (k < |b[1..]| && a[1..][k] < b[1..][k])) {
        assert DiffersAt(a, b, k + 1);
      }
    }
  }

  ghost predicate DiffersAt(a: Bytes, b: Bytes, k: nat) {
    k <= |a| && k <= |b| && a[..k] == b[..k] && (k < |a| || k < |b|) && (k < |a| && k < |b| ==> a[k] != b[k])
  }

  lemma DiffersLater(a: Bytes, b: Bytes, k: nat)
    requires a != [] && b != [] && a[0] == b[0]
    ensures DiffersAt(a, b, k + 1) <==> DiffersAt(a[1..], b[1..], k)
  {
    assert a == [a[0]] + a[1..] && b == [b[0]] + b[1..];
    if k < |a| && k < |b| {
      assert a[..k + 1] == [a[0]] + a[1..][..k] && b[..k + 1] == [b[0]] + b[1..][..k];
      assert a[..k + 1][1..] == a[1..][..k] && b[..k + 1][1..] == b[1..][..k];
    }
  }

  /** A common prefix does not matter. */
  lemma {:induction false} LeqCancel(p: Bytes, a: Bytes, b: Bytes)
    ensures Leq(p + a, p + b) <==> Leq(a, b)
  {
    if p == [] {
      assert p + a == a && p + b == b;
    } else {
      assert (p + a)[1..] == p[1..] + a && (p + b)[1..] == p[1..] + b;
      LeqCancel(p[1..], a, b);
    }
  }

  /** Heads of equal length are compared first. */
  lemma {:induction false} LeqHeads(a: Bytes, x: Bytes, b: Bytes, y: Bytes)
    requires |a| == |b|
    ensures Leq(a + x, b + y) <==> if a == b then Leq(x, y) else Leq(a, b)
  {
    if a == [] {
      assert a + x == x && b + y == y;
    } else {
      assert (a + x)[1..] == a[1..] + x && (b + y)[1..] == b[1..] + y;
      assert a == b <==> a[0] == b[0] && a[1..] == b[1..] by {
        assert a == [a[0]] + a[1..] && b == [b[0]] + b[1..];
      }
      LeqHeads(a[1..], x, b[1..], y);
    }
  }

  predicate StartsWith(key: Bytes, p: Bytes) {
    |p| <= |key| && key[..|p|] == p
  }

  /** Past the keys with a prefix there are no more of them. */
  lemma PrefixIsInterval(p: Bytes, a: Bytes, b: Bytes)
    requires Leq(p, a) && Leq(a, b) && StartsWith(b, p)
    ensures StartsWith(a, p)
    decreases |p|
  {
    if p != [] {
      assert b[0] == p[0];
      assert b[1..][..|p| - 1] == b[..|p|][1..] == p[1..];
      PrefixIsInterval(p[1..], a[1..], b[1..]);
      assert a[..|p|] == [a[0]] + a[1..][..|p| - 1];
      assert p == [p[0]] + p[1..];
    }
  }

  /** Appending a zero byte gives the next key there could be. */
  lemma {:induction false} Successor(a: Bytes, x: Bytes)
    ensures Leq(a + [0], x) <==> Less(a, x)
  {
    if a == [] {
      assert a + [0] == [0];
      assert x != [] ==> Leq([0][1..], x[1..]);
    } else if x != [] {
      assert (a + [0])[1..] == a[1..] + [0];
      Successor(a[1..], x[1..]);
    }
  }

  // ---- the scan ------------------------------------------------------------------------------------------

  ghost predicate Sorted(keys: seq<Bytes>) {
    forall i, j :: 0 <= i < j < |keys| ==> Less(keys[i], keys[j])
  }

  /** The position of the first key at or after `probe`, from position `i` on. */
  function SeekFrom(keys: seq<Bytes>, probe: Bytes, i: nat): (k: nat)
    requires i <= |keys|
    ensures i <= k <= |keys|
    ensures forall j :: i <= j < k ==> !Leq(probe, keys[j])
    ensures k < |keys| ==> Leq(probe, keys[k])
    decreases |keys| - i
  {
    if i == |keys| || Leq(probe, keys[i]) then i else SeekFrom(keys, probe, i + 1)
  }

  function Seek(keys: seq<Bytes>, probe: Bytes): (k: nat)
    ensures k <= |keys|
    ensures forall j :: 0 <= j < k ==> !Leq(probe, keys[j])
    ensures k < |keys| ==> Leq(probe, keys[k])
  {
    SeekFrom(keys, probe, 0)
  }

  predicate HoldsId(key: Bytes, prefix: Bytes) {
    StartsWith(key, prefix) && |key| >= |prefix| + ID_LENGTH
  }

  function IdOf(key: Bytes, prefix: Bytes): Bytes
    requires HoldsId(key, prefix)
  {
    key[|prefix|..|prefix| + ID_LENGTH]
  }

  datatype Scan = Scan(probe: Bytes, ids: seq<Bytes>)

  /** One round of the loop; `None` when it breaks off. */
  function Step(keys: seq<Bytes>, prefix: Bytes, s: Scan): Option<Scan> {
    var k := Seek(keys, s.probe);
    if k == |keys| || !StartsWith(keys[k], prefix) then None
    else if |keys[k]| < |prefix| + ID_LENGTH then Some(Scan(keys[k] + [0], s.ids))
    else
      var id := keys[k][|prefix|..|prefix| + ID_LENGTH];
      Some(Scan(prefix + id + [LAST_BYTE], s.ids + [id]))
  }

  /** A key whose id is continued by the byte 0xff. */
  predicate Continued(key: Bytes, prefix: Bytes) {
    HoldsId(key, prefix) && |key| > |prefix| + ID_LENGTH && key[|prefix| + ID_LENGTH] == LAST_BYTE
  }

  ghost predicate NoneContinued(keys: seq<Bytes>, prefix: Bytes) {
    forall key <- keys :: !Continued(key, prefix)
  }

  /** The ids found among the first `k` keys: each once, in increasing order. */
  ghost predicate ListsIds(ids: seq<Bytes>, keys: seq<Bytes>, prefix: Bytes) {
    && Increasing(ids)
    && (forall key <- keys :: HoldsId(key, prefix) ==> IdOf(key, prefix) in ids)
    && (forall id <- ids :: exists key :: key in keys && HoldsId(key, prefix) && IdOf(key, prefix) == id)
  }

  /** Some key continues `head`. */
  ghost predicate IsContinued(keys: seq<Bytes>, head: Bytes) {
    exists key <- keys :: head <= key
  }

  /** A key holds an id under the prefix exactly if the prefix and 32 more bytes, the id, begin it. */
  lemma HoldsIdExactly(key: Bytes, prefix: Bytes, id: Bytes)
    ensures HoldsId(key, prefix) && IdOf(key, prefix) == id <==> |id| == 32 && prefix + id <= key
  {
    if prefix + id <= key {
      assert key[..|prefix|] == (prefix + id)[..|prefix|] == prefix;
      assert key[|prefix|..|prefix| + |id|] == (prefix + id)[|prefix|..] == id;
    }
    if HoldsId(key, prefix) && IdOf(key, prefix) == id {
      assert key[..|prefix| + |id|] == prefix + id;
    }
  }

  /** Exactly the 32-byte ids that follow the prefix in some key are listed. */
  lemma ListedExactly(ids: seq<Bytes>, keys: seq<Bytes>, prefix: Bytes, id: Bytes)
    requires ListsIds(ids, keys, prefix)
    ensures id in ids <==> |id| == 32 && IsContinued(keys, prefix + id)
  {
    hide HoldsId, IdOf, Increasing;
    forall key ensures HoldsId(key, prefix) && IdOf(key, prefix) == id <==> |id| == 32 && prefix + id <= key {
      HoldsIdExactly(key, prefix, id);
    }
  }

  lemma ContinuedExactly(keys: seq<Bytes>, prefix: Bytes)
    ensures NoneContinued(keys, prefix) <==> !exists id: Bytes :: |id| == 32 && IsContinued(keys, prefix + id + [0xff])
  {
    forall key ensures Continued(key, prefix) <==> exists id: Bytes :: |id| == 32 && prefix + id + [0xff] <= key {
      ContinuedKey(key, prefix);
    }
  }

  lemma ContinuedKey(key: Bytes, prefix: Bytes)
    ensures Continued(key, prefix) <==> exists id: Bytes :: |id| == 32 && prefix + id + [0xff] <= key
  {
    hide HoldsId, IdOf;
    if Continued(key, prefix) {
      var id := IdOf(key, prefix);
      HoldsIdExactly(key, prefix, id);
      assert prefix + id + [0xff] <= key;
    }
    if id: Bytes :| |id| == 32 && prefix + id + [0xff] <= key {
      assert (prefix + id + [0xff])[..|prefix| + 32] == prefix + id;
      HoldsIdExactly(key, prefix, id);
      assert key[|prefix| + 32] == (prefix + id + [0xff])[|prefix| + 32];
    }
  }

  lemma KeyParts(key: Bytes, prefix: Bytes) returns (rest: Bytes)
    requires HoldsId(key, prefix)
    ensures key == prefix + (IdOf(key, prefix) + rest) && |IdOf(key, prefix)| == ID_LENGTH
    ensures Continued(key, prefix) <==> rest != [] && rest[0] == LAST_BYTE
  {
    rest := key[|prefix| + ID_LENGTH..];
    assert key == key[..|prefix|] + (IdOf(key, prefix) + rest);
  }

  /** Keys are ordered by id first. */
  lemma IdsAreOrdered(a: Bytes, b: Bytes, prefix: Bytes)
    requires HoldsId(a, prefix) && HoldsId(b, prefix) && Leq(a, b)
    ensures Leq(IdOf(a, prefix), IdOf(b, prefix))
  {
    var x := KeyParts(a, prefix);
    var y := KeyParts(b, prefix);
    LeqCancel(prefix, IdOf(a, prefix) + x, IdOf(b, prefix) + y);
    LeqHeads(IdOf(a, prefix), x, IdOf(b, prefix), y);
    LeqRefl(IdOf(a, prefix));
  }

  /** The probe after an id lies above that id's keys that are not continued by 0xff, and below everything of
      greater ids. */
  lemma ProbeSeparates(id: Bytes, key: Bytes, prefix: Bytes)
    requires |id| == ID_LENGTH && HoldsId(key, prefix)
    ensures Leq(prefix + id + [LAST_BYTE], key) <==>
            if id == IdOf(key, prefix) then Continued(key, prefix) else Leq(id, IdOf(key, prefix))
  {
    var rest := KeyParts(key, prefix);
    assert prefix + id + [LAST_BYTE] == prefix + (id + [LAST_BYTE]);
    LeqCancel(prefix, id + [LAST_BYTE], IdOf(key, prefix) + rest);
    LeqHeads(id, [LAST_BYTE], IdOf(key, prefix), rest);
    assert Leq([LAST_BYTE], rest) <==> rest != [] && rest[0] == LAST_BYTE by {
      assert rest != [] ==> Leq([LAST_BYTE][1..], rest[1..]);
    }
  }

  /** Before a round: the ids among the keys already passed are listed, and those still ahead are greater. */
  ghost predicate Scanned(keys: seq<Bytes>, prefix: Bytes, s: Scan) {
    var k := Seek(keys, s.probe);
    && Leq(prefix, s.probe)
    && ListsIds(s.ids, keys[..k], prefix)
    && forall j, id :: k <= j < |keys| && HoldsId(keys[j], prefix) && id in s.ids ==> Less(id, IdOf(keys[j], prefix))
  }

  lemma ScanStarts(keys: seq<Bytes>, prefix: Bytes)
    requires Sorted(keys)
    ensures Scanned(keys, prefix, Scan(prefix, []))
  {
    LeqRefl(prefix);
    var k := Seek(keys, prefix);
    forall j | 0 <= j < k ensures !HoldsId(keys[j], prefix) {
      if StartsWith(keys[j], prefix) {
        assert keys[j] == prefix + keys[j][|prefix|..] && prefix == prefix + [];
        LeqCancel(prefix, [], keys[j][|prefix|..]);
      }
    }
  }

  lemma AtOrAfter(keys: seq<Bytes>, probe: Bytes, j: nat)
    requires Sorted(keys) && Seek(keys, probe) <= j < |keys|
    ensures Leq(probe, keys[j]) && Leq(keys[Seek(keys, probe)], keys[j])
  {
    var k := Seek(keys, probe);
    LeqTotal(keys[k], keys[j]);
    LeqTransitive(probe, keys[k], keys[j]);
  }

  lemma ScanStops(keys: seq<Bytes>, prefix: Bytes, s: Scan)
    requires Sorted(keys) && Scanned(keys, prefix, s) && Step(keys, prefix, s) == None
    ensures ListsIds(s.ids, keys, prefix)
  {
    var k := Seek(keys, s.probe);
    forall j | k <= j < |keys| ensures !HoldsId(keys[j], prefix) {
      AtOrAfter(keys, s.probe, j);
      LeqTransitive(prefix, s.probe, keys[k]);
      if StartsWith(keys[j], prefix) {
        PrefixIsInterval(prefix, keys[k], keys[j]);
      }
    }
    ListsMore(s.ids, keys, prefix, k, |keys|);
    assert keys[..|keys|] == keys;
  }

  /** Keys without an id change nothing. */
  lemma ListsMore(ids: seq<Bytes>, keys: seq<Bytes>, prefix: Bytes, k: nat, l: nat)
    requires k <= l <= |keys| && ListsIds(ids, keys[..k], prefix)
    requires forall j :: k <= j < l && HoldsId(keys[j], prefix) ==> IdOf(keys[j], prefix) in ids
    ensures ListsIds(ids, keys[..l], prefix)
  {
    forall key <- keys[..l] | HoldsId(key, prefix) ensures IdOf(key, prefix) in ids {
      var j :| 0 <= j < l && keys[j] == key;
      assert j < k ==> keys[j] == keys[..k][j];
    }
    forall id <- ids ensures exists key :: key in keys[..l] && HoldsId(key, prefix) && IdOf(key, prefix) == id {
      var key :| key in keys[..k] && HoldsId(key, prefix) && IdOf(key, prefix) == id;
      assert key in keys[..l];
    }
  }

  lemma SeekIs(keys: seq<Bytes>, probe: Bytes, k: nat)
    requires k <= |keys| && (forall j :: 0 <= j < k ==> !Leq(probe, keys[j])) && (k < |keys| ==> Leq(probe, keys[k]))
    ensures Seek(keys, probe) == k
  {
    var _ := Seek(keys, probe);
  }

  lemma StepOverShort(keys: seq<Bytes>, prefix: Bytes, s: Scan)
    requires Sorted(keys) && Scanned(keys, prefix, s)
    requires var k := Seek(keys, s.probe); k < |keys| && StartsWith(keys[k], prefix) && |keys[k]| < |prefix| + ID_LENGTH
    ensures var k := Seek(keys, s.probe);
            Seek(keys, keys[k] + [0]) == k + 1 && Scanned(keys, prefix, Scan(keys[k] + [0], s.ids))
  {
    var k := Seek(keys, s.probe);
    var probe := keys[k] + [0];
    Successor(keys[k], keys[k]);
    LeqRefl(keys[k]);
    forall j | 0 <= j < |keys| ensures Leq(probe, keys[j]) <==> k < j {
      Successor(keys[k], keys[j]);
      if j < k {
        LeqTotal(keys[j], keys[k]);
      }
    }
    SeekIs(keys, probe, k + 1);
    ListsMore(s.ids, keys, prefix, k, k + 1);
    assert probe == prefix + (keys[k][|prefix|..] + [0]) && prefix == prefix + [];
    LeqCancel(prefix, [], keys[k][|prefix|..] + [0]);
  }

  /** The keys between an id's first key and the probe after it all belong to that id. */
  lemma SameIdBelowProbe(keys: seq<Bytes>, prefix: Bytes, k: nat, j: nat, id: Bytes)
    requires Sorted(keys) && k <= j < |keys| && HoldsId(keys[k], prefix) && HoldsId(keys[j], prefix)
    requires id == IdOf(keys[k], prefix) && !Leq(prefix + id + [LAST_BYTE], keys[j])
    ensures IdOf(keys[j], prefix) == id
  {
    var _ := KeyParts(keys[k], prefix);
    LeqTotal(keys[k], keys[j]);
    IdsAreOrdered(keys[k], keys[j], prefix);
    ProbeSeparates(id, keys[j], prefix);
  }

  lemma StepOverId(keys: seq<Bytes>, prefix: Bytes, s: Scan)
    requires Sorted(keys) && Scanned(keys, prefix, s) && NoneContinued(keys, prefix)
    requires var k := Seek(keys, s.probe); k < |keys| && HoldsId(keys[k], prefix)
    ensures var k := Seek(keys, s.probe);
            var id := IdOf(keys[k], prefix);
            var probe := prefix + id + [LAST_BYTE];
            Seek(keys, probe) > k && Scanned(keys, prefix, Scan(probe, s.ids + [id]))
  {
    hide Leq, Seek, ListsIds;
    var k := Seek(keys, s.probe);
    var id := IdOf(keys[k], prefix);
    var probe := prefix + id + [LAST_BYTE];
    var l := Seek(keys, probe);
    var ids := s.ids + [id];
    assert l > k by {
      assert keys[k] in keys;
      ProbeSeparates(id, keys[k], prefix);
      if l <= k {
        AtOrAfter(keys, probe, k);
      }
    }
    ListsOneMore(s.ids, keys, prefix, k, id);
    forall j | k + 1 <= j < l && HoldsId(keys[j], prefix) ensures IdOf(keys[j], prefix) in ids {
      SameIdBelowProbe(keys, prefix, k, j, id);
    }
    ListsMore(ids, keys, prefix, k + 1, l);
    forall j, x | l <= j < |keys| && HoldsId(keys[j], prefix) && x in ids ensures Less(x, IdOf(keys[j], prefix)) {
      if x !in s.ids {
        assert keys[j] in keys;
        AtOrAfter(keys, probe, j);
        ProbeSeparates(id, keys[j], prefix);
        AreDistinct(id, IdOf(keys[j], prefix));
      }
    }
    assert probe == prefix + (id + [LAST_BYTE]) && prefix == prefix + [];
    LeqCancel(prefix, [], id + [LAST_BYTE]);
    NothingIsLeast(id + [LAST_BYTE]);
  }

  lemma NothingIsLeast(a: Bytes)
    ensures Leq([], a)
  {
  }

  lemma AreDistinct(a: Bytes, b: Bytes)
    requires a != b && Leq(a, b)
    ensures Less(a, b)
  {
    if Leq(b, a) {
      LeqAntisymmetric(a, b);
    }
  }

  lemma ListsOneMore(ids: seq<Bytes>, keys: seq<Bytes>, prefix: Bytes, k: nat, id: Bytes)
    requires k < |keys| && ListsIds(ids, keys[..k], prefix) && HoldsId(keys[k], prefix) && id == IdOf(keys[k], prefix)
    requires forall x <- ids :: Less(x, id)
    ensures ListsIds(ids + [id], keys[..k + 1], prefix)
  {
    hide Leq;
    forall key <- keys[..k + 1] | HoldsId(key, prefix) ensures IdOf(key, prefix) in ids + [id] {
      var j :| 0 <= j < k + 1 && keys[j] == key;
      assert j < k ==> keys[j] == keys[..k][j];
      assert (ids + [id])[|ids|] == id;
    }
    forall x <- ids + [id] ensures exists key :: key in keys[..k + 1] && HoldsId(key, prefix) && IdOf(key, prefix) == x {
      if x in ids {
        var key :| key in keys[..k] && HoldsId(key, prefix) && IdOf(key, prefix) == x;
        assert key in keys[..k + 1];
      } else {
        assert keys[..k + 1][k] == keys[k];
      }
    }
  }

  ghost predicate Increasing(ids: seq<Bytes>) {
    forall i, j :: 0 <= i < j < |ids| ==> Less(ids[i], ids[j])
  }

  lemma {:induction false} IncreasingIsUnique(a: seq<Bytes>, b: seq<Bytes>)
    requires Increasing(a) && Increasing(b) && forall x :: x in a <==> x in b
    ensures a == b
    decreases |a|
  {
    hide Leq;
    assert b != [] ==> b[0] in a;
    if a != [] {
      assert a[|a| - 1] in b;
      assert b[|b| - 1] in a;
      var m, n := |a| - 1, |b| - 1;
      LastsAgree(a, b);
      forall x ensures x in a[..m] <==> x in b[..n] {
        InitOf(a, x);
        InitOf(b, x);
      }
      IncreasingIsUnique(a[..m], b[..n]);
      assert a == a[..m] + [a[m]] && b == b[..n] + [b[n]];
    }
  }

  lemma LastsAgree(a: seq<Bytes>, b: seq<Bytes>)
    requires Increasing(a) && Increasing(b) && a != [] && b != []
    requires a[|a| - 1] in b && b[|b| - 1] in a
    ensures a[|a| - 1] == b[|b| - 1]
  {
    var i :| 0 <= i < |a| && a[i] == b[|b| - 1];
    var j :| 0 <= j < |b| && b[j] == a[|a| - 1];
    LeqTotal(a[|a| - 1], b[|b| - 1]);
  }

  lemma InitOf(a: seq<Bytes>, x: Bytes)
    requires Increasing(a) && a != []
    ensures x in a[..|a| - 1] <==> x in a && x != a[|a| - 1]
  {
    var m := |a| - 1;
    LeqRefl(a[m]);
    assert a == a[..m] + [a[m]];
    if x in a[..m] {
      var i :| 0 <= i < m && a[i] == x;
    }
  }

  /** There is only one such list, so the seek loop finds what a scan of every key would. */
  lemma ListIsUnique(a: seq<Bytes>, b: seq<Bytes>, keys: seq<Bytes>, prefix: Bytes)
    requires ListsIds(a, keys, prefix) && ListsIds(b, keys, prefix)
    ensures a == b
  {
    hide Leq, HoldsId;
    IncreasingIsUnique(a, b);
  }

  /** The seek loop, on keys where it ends. */
  method CollectIds(keys: seq<Bytes>, prefix: Bytes) returns (ids: seq<Bytes>)
    requires Sorted(keys) && NoneContinued(keys, prefix)
    ensures ListsIds(ids, keys, prefix)
    ensures forall id :: id in ids <==> |id| == 32 && IsContinued(keys, prefix + id)
  {
    hide Scanned, Sorted, NoneContinued, ListsIds, Leq, IsContinued;
    ids := [];
    var probe := prefix;
    ScanStarts(keys, prefix);
    while true
      invariant Scanned(keys, prefix, Scan(probe, ids))
      decreases |keys| - Seek(keys, probe)
    {
      var k := Seek(keys, probe);
      if k == |keys| || !StartsWith(keys[k], prefix) {
        ScanStops(keys, prefix, Scan(probe, ids));
        forall id ensures id in ids <==> |id| == 32 && IsContinued(keys, prefix + id) {
          ListedExactly(ids, keys, prefix, id);
        }
        break;
      }
      var suffix := keys[k][|prefix|..];
      if |suffix| < ID_LENGTH {
        StepOverShort(keys, prefix, Scan(probe, ids));
        probe := keys[k] + [0];
        continue;
      }
      var id := suffix[..ID_LENGTH];
      assert id == IdOf(keys[k], prefix);
      StepOverId(keys, prefix, Scan(probe, ids));
      probe := prefix + id + [LAST_BYTE];
      ids := ids + [id];
    }
  }

  // ---- where the loop ends -------------------------------------------------------------------------------

  /** The state after `n` rounds, if the loop is still going. */
  ghost function Rounds(keys: seq<Bytes>, prefix: Bytes, s: Scan, n: nat): Option<Scan>
    decreases n
  {
    if n == 0 then Some(s)
    else match Step(keys, prefix, s)
      case None => None
      case Some(next) => Rounds(keys, prefix, next, n - 1)
  }

  ghost predicate Ends(keys: seq<Bytes>, prefix: Bytes) {
    exists n: nat :: Rounds(keys, prefix, Scan(prefix, []), n) == None
  }

  lemma {:induction false} EndsWithin(keys: seq<Bytes>, prefix: Bytes, s: Scan)
    requires Sorted(keys) && NoneContinued(keys, prefix) && Scanned(keys, prefix, s)
    ensures Rounds(keys, prefix, s, |keys| - Seek(keys, s.probe) + 1) == None
    decreases |keys| - Seek(keys, s.probe)
  {
    hide Scanned, Sorted, NoneContinued, Leq, Seek;
    var k := Seek(keys, s.probe);
    if Step(keys, prefix, s).Some? {
      if |keys[k]| < |prefix| + ID_LENGTH {
        StepOverShort(keys, prefix, s);
      } else {
        StepOverId(keys, prefix, s);
      }
      var next := Step(keys, prefix, s).value;
      EndsWithin(keys, prefix, next);
      MoreRounds(keys, prefix, next, |keys| - Seek(keys, next.probe) + 1, |keys| - k);
    }
  }

  lemma {:induction false} MoreRounds(keys: seq<Bytes>, prefix: Bytes, s: Scan, m: nat, n: nat)
    requires m <= n && Rounds(keys, prefix, s, m) == None
    ensures Rounds(keys, prefix, s, n) == None
    decreases m
  {
    if Step(keys, prefix, s).Some? {
      MoreRounds(keys, prefix, Step(keys, prefix, s).value, m - 1, n - 1);
    }
  }

  /** Still at or before a key that keeps the loop going. */
  ghost predicate Before(prefix: Bytes, s: Scan, key: Bytes) {
    Leq(prefix, s.probe) && Leq(s.probe, key)
  }

  lemma StepStaysBefore(keys: seq<Bytes>, prefix: Bytes, s: Scan, c: nat)
    requires Sorted(keys) && c < |keys| && Continued(keys[c], prefix) && Before(prefix, s, keys[c])
    ensures Step(keys, prefix, s).Some? && Before(prefix, Step(keys, prefix, s).value, keys[c])
  {
    hide Leq, Seek;
    var k := Seek(keys, s.probe);
    assert k <= c;
    AtOrAfter(keys, s.probe, c);
    LeqTransitive(prefix, s.probe, keys[k]);
    PrefixIsInterval(prefix, keys[k], keys[c]);
    NothingIsLeast(keys[k][|prefix|..] + [0]);
    assert prefix == prefix + [];
    if |keys[k]| < |prefix| + ID_LENGTH {
      Successor(keys[k], keys[c]);
      assert keys[k] + [0] == prefix + (keys[k][|prefix|..] + [0]);
      LeqCancel(prefix, [], keys[k][|prefix|..] + [0]);
    } else {
      var id := IdOf(keys[k], prefix);
      IdsAreOrdered(keys[k], keys[c], prefix);
      ProbeSeparates(id, keys[c], prefix);
      assert prefix + id + [LAST_BYTE] == prefix + (id + [LAST_BYTE]);
      LeqCancel(prefix, [], id + [LAST_BYTE]);
      NothingIsLeast(id + [LAST_BYTE]);
    }
  }

  lemma {:induction false} KeepsGoing(keys: seq<Bytes>, prefix: Bytes, s: Scan, c: nat, n: nat)
    requires Sorted(keys) && c < |keys| && Continued(keys[c], prefix) && Before(prefix, s, keys[c])
    ensures Rounds(keys, prefix, s, n).Some?
    decreases n
  {
    if n > 0 {
      StepStaysBefore(keys, prefix, s, c);
      KeepsGoing(keys, prefix, Step(keys, prefix, s).value, c, n - 1);
    }
  }

  /** The loop ends exactly if no id under the prefix is continued by the byte 0xff. */
  lemma EndsIff(keys: seq<Bytes>, prefix: Bytes)
    requires Sorted(keys)
    ensures Ends(keys, prefix) <==> NoneContinued(keys, prefix)
    ensures Ends(keys, prefix) <==> !exists id: Bytes :: |id| == 32 && IsContinued(keys, prefix + id + [0xff])
  {
    hide Sorted, Scanned, IsContinued;
    ContinuedExactly(keys, prefix);
    var start := Scan(prefix, []);
    if NoneContinued(keys, prefix) {
      ScanStarts(keys, prefix);
      EndsWithin(keys, prefix, start);
    } else {
      var key :| key in keys && Continued(key, prefix);
      var c :| 0 <= c < |keys| && keys[c] == key;
      LeqRefl(prefix);
      assert key == prefix + key[|prefix|..] && prefix == prefix + [];
      LeqCancel(prefix, [], key[|prefix|..]);
      forall n: nat ensures Rounds(keys, prefix, start, n).Some? {
        KeepsGoing(keys, prefix, start, c, n);
      }
    }
  }
}
