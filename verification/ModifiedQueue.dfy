/** The miner's view of a transaction, and the lazily cleaned priority queue of modified transactions. */
module ModifiedQueues {
  import opened Collections
  import opened TxGraph
  import opened TemplateSpec

  datatype MinerTx = MinerTx(
    fee: nat, weight: nat, adjustedVsize: nat,
    feeRate: real, dependencyRate: real,
    inputs: seq<Txid>, spent: seq<OutPoint>,
    ancestors: set<Txid>, children: set<Txid>,
    ancestorFee: nat, ancestorVsize: nat, score: real,
    used: bool, modified: bool)

  type Pool = map<Txid, MinerTx>

  function ScoresOf(pool: Pool): map<Txid, real> {
    map t | t in pool :: pool[t].score
  }

  datatype ModifiedEntry = ModifiedEntry(score: real, txid: Txid)

  /** The heap order: a lower score, or the same score and a larger id, is smaller. */
  predicate AtMost(a: ModifiedEntry, b: ModifiedEntry) {
    a.score < b.score || (a.score == b.score && a.txid >= b.txid)
  }

  ghost predicate IsTop(heap: multiset<ModifiedEntry>, e: ModifiedEntry) {
    e in heap && forall f :: f in heap ==> AtMost(f, e)
  }

  lemma {:induction false} TopExists(heap: multiset<ModifiedEntry>)
    requires heap != multiset{}
    ensures exists e :: IsTop(heap, e)
    decreases |heap|
  {
    var e :| e in heap;
    var rest := heap - multiset{e};
    assert forall f :: f in heap ==> f == e || f in rest;
    if rest == multiset{} {
      assert IsTop(heap, e);
    } else {
      TopExists(rest);
      var f :| IsTop(rest, f);
      assert IsTop(heap, if AtMost(e, f) then f else e);
    }
  }

  lemma TopIsUnique(heap: multiset<ModifiedEntry>, e: ModifiedEntry, f: ModifiedEntry)
    requires IsTop(heap, e) && IsTop(heap, f)
    ensures e == f
  {
  }

  /** Every queued transaction has a heap entry at its current score; stale entries do not matter. */
  ghost predicate Covers(heap: multiset<ModifiedEntry>, contents: multiset<Txid>, pool: Pool) {
    forall t :: t in contents ==> t in pool && ModifiedEntry(pool[t].score, t) in heap
  }

  lemma StaysCovered(heap: multiset<ModifiedEntry>, contents: multiset<Txid>, pool: Pool, e: ModifiedEntry)
    requires Covers(heap, contents, pool)
    requires e.txid in contents && e.txid in pool ==> pool[e.txid].score != e.score
    ensures Covers(heap - multiset{e}, contents, pool)
  {
  }

  lemma TopIsBest(heap: multiset<ModifiedEntry>, contents: multiset<Txid>, pool: Pool, e: ModifiedEntry)
    requires Covers(heap, contents, pool) && IsTop(heap, e)
    requires e.txid in contents && pool[e.txid].score == e.score
    ensures forall u :: u in contents ==> u in ScoresOf(pool)
    ensures IsBest(ScoresOf(pool), contents, e.txid)
  {
    forall u | u in contents
      ensures Before(ScoresOf(pool), e.txid, u)
    {
      assert AtMost(ModifiedEntry(pool[u].score, u), e);
    }
  }

  lemma FewerEntries(heap: multiset<ModifiedEntry>, e: ModifiedEntry)
    requires e in heap
    ensures |heap - multiset{e}| < |heap|
  {
  }

  lemma TopIsIn(heap: multiset<ModifiedEntry>, e: ModifiedEntry)
    requires IsTop(heap, e)
    ensures e in heap
  {
  }

  lemma NothingQueued(heap: multiset<ModifiedEntry>, contents: multiset<Txid>, pool: Pool)
    requires Covers(heap, contents, pool) && heap == multiset{}
    ensures contents == multiset{}
  {
  }

  /** `BinaryHeap::peek`. */
  method PeekHeap(heap: multiset<ModifiedEntry>) returns (e: ModifiedEntry)
    requires heap != multiset{}
    ensures IsTop(heap, e)
  {
    TopExists(heap);
    e :| e in heap && forall f :: f in heap ==> AtMost(f, e);
  }

  /** The counts are the multiplicities. */
  ghost predicate Counted(count: map<Txid, nat>, contents: multiset<Txid>) {
    forall t: Txid :: contents[t] == if t in count then count[t] else 0
  }

  /** One occurrence fewer. */
  lemma CountsDown(count: map<Txid, nat>, contents: multiset<Txid>, t: Txid, remaining: nat)
    requires Counted(count, contents) && t in contents && remaining == Monus(if t in count then count[t] else 0, 1)
    ensures Counted(count[t := remaining], contents - multiset{t})
    ensures (contents - multiset{t})[t := 0] == contents[t := 0]
    ensures remaining == 0 ==> (contents - multiset{t})[t := 0] == contents - multiset{t}
  {
  }

  class ModifiedQueue {
    var heap: multiset<ModifiedEntry>
    var count: map<Txid, nat>

    /** The queued transactions with their multiplicities: what the queue stands for. */
    ghost var contents: multiset<Txid>

    constructor ()
      ensures contents == multiset{} && Tracks()
      ensures forall pool :: Valid(pool)
    {
      heap, count := multiset{}, map[];
      contents := multiset{};
    }

    function Count(txid: Txid): nat
      reads this
    {
      if txid in count then count[txid] else 0
    }

    ghost predicate Tracks()
      reads this
    {
      Counted(count, contents)
    }

    ghost predicate Valid(pool: Pool)
      reads this
    {
      Tracks() && Covers(heap, contents, pool)
    }

    /** Like `Valid`, while the score of `x` has changed and `x` has not been re-keyed yet. */
    ghost predicate ValidExcept(pool: Pool, x: Txid)
      reads this
    {
      Tracks() && Covers(heap, contents[x := 0], pool)
    }

    lemma CountsContents(t: Txid)
      requires Tracks()
      ensures t in contents <==> Count(t) > 0
    {
    }

    method PushEntry(txid: Txid, pool: Pool)
      requires ValidExcept(pool, txid)
      modifies this
      ensures count == old(count) && contents == old(contents)
      ensures txid in pool || txid !in contents ==> Valid(pool)
    {
      if txid in pool {
        heap := heap + multiset{ModifiedEntry(pool[txid].score, txid)};
      }
    }

    method Enqueue(txid: Txid, pool: Pool)
      requires ValidExcept(pool, txid)
      modifies this
      ensures contents == old(contents) + multiset{txid}
      ensures txid in pool ==> Valid(pool)
    {
      count := count[txid := Count(txid) + 1];
      contents := contents + multiset{txid};
      PushEntry(txid, pool);
    }

    method Rekey(txid: Txid, pool: Pool)
      requires ValidExcept(pool, txid)
      modifies this
      ensures contents == old(contents)
      ensures txid in pool ==> Valid(pool)
    {
      if Count(txid) > 0 {
        PushEntry(txid, pool);
      }
    }

    predicate IsValid(entry: ModifiedEntry, pool: Pool)
      reads this
    {
      Count(entry.txid) > 0 && entry.txid in pool && pool[entry.txid].score == entry.score
    }

    /** Drop stale entries from the top of the heap. */
    method Clean(pool: Pool)
      requires Valid(pool)
      modifies this
      ensures Valid(pool) && contents == old(contents) && count == old(count)
      ensures heap == multiset{} <==> contents == multiset{}
      ensures heap != multiset{} ==>
                forall e :: IsTop(heap, e) ==> e.txid in contents && e.txid in pool && pool[e.txid].score == e.score
    {
      hide Covers, IsTop, Counted;
      while heap != multiset{}
        invariant Valid(pool) && contents == old(contents) && count == old(count)
        decreases |heap|
      {
        var top := PeekHeap(heap);
        CountsContents(top.txid);
        if IsValid(top, pool) {
          forall e | IsTop(heap, e)
            ensures e == top
          {
            TopIsUnique(heap, e, top);
          }
          return;
        }
        TopIsIn(heap, top);
        StaysCovered(heap, contents, pool, top);
        FewerEntries(heap, top);
        heap := heap - multiset{top};
      }
      NothingQueued(heap, contents, pool);
    }

    method Peek(pool: Pool) returns (t: Option<Txid>)
      requires Valid(pool)
      modifies this
      ensures Valid(pool) && contents == old(contents)
      ensures t.None? <==> contents == multiset{}
      ensures t.Some? ==>
                && (forall u :: u in contents ==> u in ScoresOf(pool))
                && IsBest(ScoresOf(pool), contents, t.value)
    {
      Clean(pool);
      if heap == multiset{} {
        return None;
      }
      var entry := PeekHeap(heap);
      TopIsBest(heap, contents, pool, entry);
      t := Some(entry.txid);
    }

    method Pop(pool: Pool) returns (t: Option<Txid>)
      requires Valid(pool)
      modifies this
      ensures Valid(pool)
      ensures t.None? <==> old(contents) == multiset{}
      ensures t.None? ==> contents == old(contents)
      ensures t.Some? ==>
                && (forall u :: u in old(contents) ==> u in ScoresOf(pool))
                && IsBest(ScoresOf(pool), old(contents), t.value)
                && contents == old(contents) - multiset{t.value}
    {
      hide IsTop, IsBest, Covers, Counted;
      Clean(pool);
      if heap == multiset{} {
        return None;
      }
      var entry := PeekHeap(heap);
      TopIsBest(heap, contents, pool, entry);
      DropAll(entry, pool);
      var remaining := Monus(Count(entry.txid), 1);
      CountsDown(count, contents, entry.txid, remaining);
      count := count[entry.txid := remaining];
      contents := contents - multiset{entry.txid};
      if remaining > 0 {
        PushEntry(entry.txid, pool);
      }
      t := Some(entry.txid);
    }

    /** Drop every heap entry identical to `entry`. */
    method DropAll(entry: ModifiedEntry, pool: Pool)
      requires Valid(pool)
      modifies this`heap
      ensures ValidExcept(pool, entry.txid)
    {
      assert Covers(heap, contents[entry.txid := 0], pool);
      hide Covers, Counted;
      while entry in heap
        invariant Tracks() && Covers(heap, contents[entry.txid := 0], pool)
        decreases |heap|
      {
        StaysCovered(heap, contents[entry.txid := 0], pool, entry);
        FewerEntries(heap, entry);
        heap := heap - multiset{entry};
      }
    }

    method IsEmpty(pool: Pool) returns (empty: bool)
      requires Valid(pool)
      modifies this
      ensures Valid(pool) && contents == old(contents)
      ensures empty <==> contents == multiset{}
    {
      Clean(pool);
      empty := heap == multiset{};
    }
  }
}
