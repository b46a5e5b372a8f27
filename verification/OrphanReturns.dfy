/** Rebalancing a call trace: host functions log a bare return with no matching invoke, and the cleaner
    removes exactly enough such returns for the trace to be a well-nested sequence of calls again. */
module OrphanReturns {
  import opened Collections

  /** `Return` carries a payload only if it could be the answer of a host function. */
  datatype CleanEventView = Invoke | Return(candidateData: Option<Bytes>) | Other

  datatype HostFunctionValues = HostFunctionValues(header: Bytes, coinbase: Bytes, diesel: Bytes, fee: Bytes)

  /** The decoders the fuzzy match asks: a valid block header, a valid coinbase transaction. */
  datatype Decoders = Decoders(isHeader: Bytes -> bool, isCoinbase: Bytes -> bool)

  predicate HostMatch(host: HostFunctionValues, data: Bytes) {
    data != [] && (data == host.header || data == host.coinbase || data == host.diesel || data == host.fee)
  }

  predicate FuzzyHostMatch(decoders: Decoders, data: Bytes) {
    (|data| == 80 && decoders.isHeader(data)) || decoders.isCoinbase(data)
  }

  predicate IsCandidate(view: CleanEventView, host: HostFunctionValues, decoders: Decoders, allowFuzzy: bool) {
    && view.Return? && view.candidateData.Some?
    && (HostMatch(host, view.candidateData.value) || (allowFuzzy && FuzzyHostMatch(decoders, view.candidateData.value)))
  }

  // ---- depth of the call stack ---------------------------------------------------------------

  function Delta(view: CleanEventView): int {
    match view
    case Invoke => 1
    case Return(_) => -1
    case Other => 0
  }

  /** The call depth after the first `k` events, leaving out the removed ones. */
  ghost function Depth(views: seq<CleanEventView>, removed: set<nat>, k: nat): int
    requires k <= |views|
  {
    if k == 0 then 0
    else Depth(views, removed, k - 1) + (if k - 1 in removed then 0 else Delta(views[k - 1]))
  }

  /** The surviving events never return from an empty stack and leave nothing open. */
  ghost predicate Balanced(views: seq<CleanEventView>, removed: set<nat>) {
    (forall k :: 0 <= k <= |views| ==> Depth(views, removed, k) >= 0) && Depth(views, removed, |views|) == 0
  }

  ghost function Prefix(s: set<nat>, k: nat): set<nat> {
    set i | i in s && i < k
  }

  ghost predicate AreReturns(views: seq<CleanEventView>, s: set<nat>) {
    forall i :: i in s ==> i < |views| && views[i].Return?
  }

  lemma PrefixStep(s: set<nat>, k: nat)
    ensures Prefix(s, k + 1) == Prefix(s, k) + (if k in s then {k} else {})
    ensures |Prefix(s, k + 1)| == |Prefix(s, k)| + (if k in s then 1 else 0)
  {
    if k in s {
      assert Prefix(s, k + 1) == Prefix(s, k) + {k};
    } else {
      assert Prefix(s, k + 1) == Prefix(s, k);
    }
  }

  /** Each removed return raises the depth after it by one. */
  lemma {:induction false} DepthSplits(views: seq<CleanEventView>, s: set<nat>, k: nat)
    requires k <= |views| && AreReturns(views, s)
    ensures Depth(views, s, k) == Depth(views, {}, k) + |Prefix(s, k)|
  {
    if k == 0 {
      assert Prefix(s, 0) == {};
    } else {
      DepthSplits(views, s, k - 1);
      PrefixStep(s, k - 1);
    }
  }

  // ---- what a removal has to achieve ------------------------------------------------------------

  ghost function Candidates(views: seq<CleanEventView>, host: HostFunctionValues, decoders: Decoders, allowFuzzy: bool): (all: set<nat>)
    ensures AreReturns(views, all)
  {
    set i: nat | i < |views| && IsCandidate(views[i], host, decoders, allowFuzzy)
  }

  /** A set of candidate returns whose removal leaves a balanced call stack. */
  ghost predicate Rebalances(views: seq<CleanEventView>, all: set<nat>, s: set<nat>) {
    s <= all && Balanced(views, s)
  }

  /** `r` removes no more than any other rebalancing set up to every point of the trace: it removes the
      latest possible returns, which determines it. */
  ghost predicate Latest(views: seq<CleanEventView>, all: set<nat>, r: set<nat>) {
    forall s, k :: Rebalances(views, all, s) && 0 <= k <= |views| ==> |Prefix(r, k)| <= |Prefix(s, k)|
  }

  lemma WholePrefix(views: seq<CleanEventView>, s: set<nat>)
    requires AreReturns(views, s)
    ensures Prefix(s, |views|) == s
  {
  }

  /** Every rebalancing set has as many members as there are surplus returns. */
  lemma RebalancingSize(views: seq<CleanEventView>, all: set<nat>, s: set<nat>)
    requires AreReturns(views, all) && Rebalances(views, all, s)
    ensures |s| == -Depth(views, {}, |views|)
  {
    DepthSplits(views, s, |views|);
    WholePrefix(views, s);
  }

  lemma {:induction false} LatestPrefixIsUnique(views: seq<CleanEventView>, all: set<nat>, r: set<nat>, s: set<nat>, k: nat)
    requires k <= |views|
    requires Rebalances(views, all, r) && Latest(views, all, r)
    requires Rebalances(views, all, s) && Latest(views, all, s)
    ensures Prefix(r, k) == Prefix(s, k)
  {
    hide Rebalances, Prefix;
    NothingBefore(r);
    NothingBefore(s);
    if k > 0 {
      LatestPrefixIsUnique(views, all, r, s, k - 1);
      PrefixStep(r, k - 1);
      PrefixStep(s, k - 1);
      assert |Prefix(r, k)| == |Prefix(s, k)|;
    }
  }

  lemma LatestIsUnique(views: seq<CleanEventView>, all: set<nat>, r: set<nat>, s: set<nat>)
    requires AreReturns(views, all)
    requires Rebalances(views, all, r) && Latest(views, all, r)
    requires Rebalances(views, all, s) && Latest(views, all, s)
    ensures r == s
  {
    hide Balanced, Latest;
    LatestPrefixIsUnique(views, all, r, s, |views|);
    WholePrefix(views, r);
    WholePrefix(views, s);
  }

  // ---- the greedy pass ------------------------------------------------------------------------------

  ghost function Between(s: set<nat>, k: nat, j: nat): set<nat> {
    set i | i in s && k <= i < j
  }

  /** The depth at `j` shows that `m` returns before `k` must go: the candidates between do not suffice. */
  ghost predicate Forces(views: seq<CleanEventView>, all: set<nat>, m: nat, k: nat, j: nat)
    requires j <= |views|
  {
    m <= -Depth(views, {}, j) - |Between(all, k, j)|
  }

  ghost predicate IsForced(views: seq<CleanEventView>, all: set<nat>, idx: nat, m: nat, k: nat)
    requires idx <= |views|
  {
    m == 0 || exists j: nat :: j <= idx && Forces(views, all, m, k, j)
  }

  ghost predicate AllForced(views: seq<CleanEventView>, all: set<nat>, idx: nat, removed: set<nat>)
    requires idx <= |views|
  {
    forall k :: 0 <= k <= idx ==> IsForced(views, all, idx, |Prefix(removed, k)|, k)
  }

  ghost predicate NeverNegative(views: seq<CleanEventView>, removed: set<nat>, idx: nat)
    requires idx <= |views|
  {
    forall k :: 0 <= k <= idx ==> Depth(views, removed, k) >= 0
  }

  /** The stack holds the candidates seen and not removed, in order. */
  ghost predicate Stacked(all: set<nat>, idx: nat, stack: seq<nat>, removed: set<nat>) {
    && (forall i <- stack :: i in all && i < idx && i !in removed)
    && (forall i <- all :: i < idx && i !in removed ==> i in stack)
    && (forall a, b :: 0 <= a < b < |stack| ==> stack[a] < stack[b])
  }

  /** The greedy pass after `idx` events. */
  ghost predicate Greedy(views: seq<CleanEventView>, all: set<nat>, idx: nat, depth: int, stack: seq<nat>, removed: set<nat>)
    requires idx <= |views|
  {
    && AreReturns(views, all)
    && removed <= Prefix(all, idx)
    && Stacked(all, idx, stack, removed)
    && depth == Depth(views, removed, idx)
    && NeverNegative(views, removed, idx)
    && AllForced(views, all, idx, removed)
  }

  lemma StackedStep(all: set<nat>, idx: nat, stack: seq<nat>, removed: set<nat>)
    requires Stacked(all, idx, stack, removed) && removed <= Prefix(all, idx)
    ensures Stacked(all, idx + 1, if idx in all then stack + [idx] else stack, removed)
  {
    if idx in all {
      var longer := stack + [idx];
      forall i <- all | i < idx + 1 && i !in removed ensures i in longer {
        assert i == idx ==> longer[|stack|] == i;
      }
      forall a, b | 0 <= a < b < |longer| ensures longer[a] < longer[b] {
        assert longer[a] == stack[a] && stack[a] in stack;
      }
    }
  }

  lemma StackedPop(all: set<nat>, idx: nat, stack: seq<nat>, removed: set<nat>)
    requires Stacked(all, idx, stack, removed) && stack != []
    ensures var r := stack[|stack| - 1];
            && r in all && r < idx && r !in removed
            && Stacked(all, idx, stack[..|stack| - 1], removed + {r})
            && forall i <- all :: r < i < idx ==> i in removed
  {
    var n := |stack| - 1;
    assert stack == stack[..n] + [stack[n]];
    assert stack[n] in stack;
  }

  /** A demand seen at a prefix stands. */
  lemma ForcedLonger(views: seq<CleanEventView>, all: set<nat>, idx: nat, removed: set<nat>)
    requires idx < |views| && removed <= Prefix(all, idx)
    requires AllForced(views, all, idx, removed)
    ensures AllForced(views, all, idx + 1, removed)
  {
    forall k | 0 <= k <= idx + 1
      ensures IsForced(views, all, idx + 1, |Prefix(removed, k)|, k)
    {
      var l := if k <= idx then k else idx;
      assert Prefix(removed, k) == Prefix(removed, l);
      assert IsForced(views, all, idx, |Prefix(removed, l)|, l);
      if |Prefix(removed, l)| != 0 {
        var j: nat :| j <= idx && Forces(views, all, |Prefix(removed, l)|, l, j);
        assert k == l || (Between(all, k, j) == {} && Between(all, l, j) == {});
        assert Forces(views, all, |Prefix(removed, k)|, k, j);
      }
    }
  }

  lemma PrefixAdd(s: set<nat>, r: nat, k: nat)
    requires r !in s
    ensures |Prefix(s + {r}, k)| == |Prefix(s, k)| + (if r < k then 1 else 0)
  {
    assert Prefix(s + {r}, k) == Prefix(s, k) + (if r < k then {r} else {});
  }

  lemma PrefixSplit(s: set<nat>, k: nat, n: nat)
    requires k <= n && s <= Prefix(s, n)
    ensures |s| == |Prefix(s, k)| + |Between(s, k, n)|
  {
    assert s == Prefix(s, k) + Between(s, k, n);
  }

  /** Removing the latest candidate left is forced as well, by the event that found the stack empty. */
  lemma ForcedByPop(views: seq<CleanEventView>, all: set<nat>, n: nat, removed: set<nat>, r: nat)
    requires n <= |views| && removed <= Prefix(all, n) && r in Prefix(all, n) && r !in removed
    requires forall i <- all :: r < i < n ==> i in removed
    requires -Depth(views, {}, n) == |removed| + 1
    requires AllForced(views, all, n, removed)
    ensures AllForced(views, all, n, removed + {r})
  {
    forall k | 0 <= k <= n
      ensures IsForced(views, all, n, |Prefix(removed + {r}, k)|, k)
    {
      PrefixAdd(removed, r, k);
      assert IsForced(views, all, n, |Prefix(removed, k)|, k);
      if r < k {
        PrefixSplit(removed, k, n);
        assert Between(all, k, n) == Between(removed, k, n);
        assert Forces(views, all, |Prefix(removed + {r}, k)|, k, n);
      }
    }
  }

  lemma SubsetSize(s: set<nat>, t: set<nat>)
    requires s <= t
    ensures |s| <= |t|
  {
    assert t == s + (t - s);
  }

  /** What is forced, every rebalancing set removes. */
  lemma ForcedRemovals(views: seq<CleanEventView>, all: set<nat>, idx: nat, m: nat, k: nat, s: set<nat>)
    requires k <= idx <= |views| && AreReturns(views, all)
    requires IsForced(views, all, idx, m, k) && Rebalances(views, all, s)
    ensures m <= |Prefix(s, k)|
  {
    if m != 0 {
      var j: nat :| j <= idx && Forces(views, all, m, k, j);
      DepthSplits(views, s, j);
      assert Depth(views, s, j) >= 0;
      SubsetSize(Prefix(s, j), Prefix(s, k) + Between(s, k, j));
      SubsetSize(Between(s, k, j), Between(all, k, j));
    }
  }

  /** The pass fails only when nothing rebalances the trace. */
  lemma NothingLeft(views: seq<CleanEventView>, all: set<nat>, n: nat, removed: set<nat>, s: set<nat>)
    requires n <= |views| && AreReturns(views, all) && removed == Prefix(all, n)
    requires -Depth(views, {}, n) > |removed|
    ensures !Rebalances(views, all, s)
  {
    if Rebalances(views, all, s) {
      DepthSplits(views, s, n);
      assert Depth(views, s, n) >= 0;
      SubsetSize(Prefix(s, n), removed);
      assert false;
    }
  }

  /** One event, when no return has to go. */
  lemma GreedyStep(views: seq<CleanEventView>, all: set<nat>, idx: nat, depth: int, stack: seq<nat>, removed: set<nat>)
    requires idx < |views| && Greedy(views, all, idx, depth, stack, removed)
    requires depth + Delta(views[idx]) >= 0
    ensures Greedy(views, all, idx + 1, depth + Delta(views[idx]), if idx in all then stack + [idx] else stack, removed)
  {
    hide Stacked, AllForced;
    StackedStep(all, idx, stack, removed);
    ForcedLonger(views, all, idx, removed);
    assert idx !in removed;
  }

  /** One return from an empty stack. */
  lemma GreedyPop(views: seq<CleanEventView>, all: set<nat>, idx: nat, depth: int, stack: seq<nat>, removed: set<nat>)
    requires idx < |views| && Greedy(views, all, idx, depth, stack, removed)
    requires depth + Delta(views[idx]) < 0
    ensures var pushed := if idx in all then stack + [idx] else stack;
            if pushed == [] then forall s :: !Rebalances(views, all, s)
            else Greedy(views, all, idx + 1, 0, pushed[..|pushed| - 1], removed + {pushed[|pushed| - 1]})
  {
    hide AllForced, Rebalances, Depth;
    var pushed := if idx in all then stack + [idx] else stack;
    StackedStep(all, idx, stack, removed);
    SurplusReturn(views, all, idx, removed);
    if pushed == [] {
      assert removed == Prefix(all, idx + 1);
      hide *;
      forall s { NothingLeft(views, all, idx + 1, removed, s); }
    } else {
      var r := pushed[|pushed| - 1];
      StackedPop(all, idx + 1, pushed, removed);
      hide Stacked, NeverNegative;
      ForcedLonger(views, all, idx, removed);
      ForcedByPop(views, all, idx + 1, removed, r);
      PopDepths(views, removed, r, idx + 1);
    }
  }

  lemma SurplusReturn(views: seq<CleanEventView>, all: set<nat>, idx: nat, removed: set<nat>)
    requires idx < |views| && AreReturns(views, all) && removed <= Prefix(all, idx)
    requires NeverNegative(views, removed, idx) && Depth(views, removed, idx) + Delta(views[idx]) < 0
    ensures Depth(views, removed, idx) == 0 && Depth(views, removed, idx + 1) == -1
    ensures -Depth(views, {}, idx + 1) == |removed| + 1
  {
    assert idx !in removed;
    DepthSplits(views, removed, idx);
    assert Prefix(removed, idx) == removed;
  }

  lemma PopDepth(views: seq<CleanEventView>, removed: set<nat>, r: nat, k: nat)
    requires k <= |views| && AreReturns(views, removed + {r}) && r !in removed
    ensures Depth(views, removed + {r}, k) == Depth(views, removed, k) + (if r < k then 1 else 0)
  {
    hide Depth;
    PrefixAdd(removed, r, k);
    DepthSplits(views, removed, k);
    DepthSplits(views, removed + {r}, k);
  }

  lemma PopDepths(views: seq<CleanEventView>, removed: set<nat>, r: nat, n: nat)
    requires 0 < n <= |views| && AreReturns(views, removed + {r}) && r < n && r !in removed
    requires NeverNegative(views, removed, n - 1) && Depth(views, removed, n) == -1
    ensures NeverNegative(views, removed + {r}, n) && Depth(views, removed + {r}, n) == 0
  {
    hide Depth;
    forall k | 0 <= k <= n
      ensures Depth(views, removed + {r}, k) >= 0 && (k == n ==> Depth(views, removed + {r}, k) == 0)
    {
      PopDepth(views, removed, r, k);
    }
  }

  /** The end of the pass: either the removals rebalance the trace, as late as possible, or nothing does. */
  lemma GreedyEnd(views: seq<CleanEventView>, all: set<nat>, depth: int, stack: seq<nat>, removed: set<nat>)
    requires Greedy(views, all, |views|, depth, stack, removed)
    ensures |removed| == -Depth(views, {}, |views|) ==> Rebalances(views, all, removed) && Latest(views, all, removed) && Balanced(views, removed)
    ensures |removed| != -Depth(views, {}, |views|) ==> forall s :: !Rebalances(views, all, s)
  {
    hide Stacked;
    DepthSplits(views, removed, |views|);
    WholePrefix(views, removed);
    if |removed| == -Depth(views, {}, |views|) {
      forall s, k | Rebalances(views, all, s) && 0 <= k <= |views|
        ensures |Prefix(removed, k)| <= |Prefix(s, k)|
      {
        ForcedRemovals(views, all, |views|, |Prefix(removed, k)|, k, s);
      }
    } else {
      forall s ensures !Rebalances(views, all, s) { TooMany(views, all, removed, s); }
    }
  }

  lemma TooMany(views: seq<CleanEventView>, all: set<nat>, removed: set<nat>, s: set<nat>)
    requires AreReturns(views, all) && removed <= all && AllForced(views, all, |views|, removed)
    requires |removed| > -Depth(views, {}, |views|)
    ensures !Rebalances(views, all, s)
  {
    if Rebalances(views, all, s) {
      WholePrefix(views, removed);
      WholePrefix(views, s);
      ForcedRemovals(views, all, |views|, |removed|, |views|, s);
      RebalancingSize(views, all, s);
      assert false;
    }
  }

  // ---- the cleaner -------------------------------------------------------------------------------------

  /** What one attempt has to answer. */
  ghost predicate Answers(views: seq<CleanEventView>, all: set<nat>, r: Option<set<nat>>) {
    match r
    case Some(removed) => Rebalances(views, all, removed) && Latest(views, all, removed)
    case None => forall s :: !Rebalances(views, all, s)
  }

  /** The second pass over the survivors; it never has anything to object to. */
  method Validate(views: seq<CleanEventView>, removed: set<nat>) returns (ok: bool)
    ensures ok <==> Balanced(views, removed)
  {
    var cleanedInvokes, cleanedReturns, cleanedDepth := 0, 0, 0;
    for idx := 0 to |views|
      invariant cleanedDepth == Depth(views, removed, idx) == cleanedInvokes - cleanedReturns
      invariant NeverNegative(views, removed, idx)
    {
      if idx !in removed {
        match views[idx]
        case Invoke =>
          cleanedInvokes, cleanedDepth := cleanedInvokes + 1, cleanedDepth + 1;
        case Return(_) =>
          cleanedReturns, cleanedDepth := cleanedReturns + 1, cleanedDepth - 1;
          if cleanedDepth < 0 {
            assert Depth(views, removed, idx + 1) < 0;
            return false;
          }
        case Other =>
      }
    }
    ok := !(cleanedInvokes != cleanedReturns || cleanedDepth != 0);
  }

  method Attempt(views: seq<CleanEventView>, host: HostFunctionValues, decoders: Decoders, mismatch: nat, allowFuzzy: bool)
    returns (r: Option<set<nat>>)
    requires mismatch == -Depth(views, {}, |views|)
    ensures Answers(views, Candidates(views, host, decoders, allowFuzzy), r)
  {
    hide Greedy, Rebalances, Latest;
    ghost var all := Candidates(views, host, decoders, allowFuzzy);
    var removed: set<nat> := {};
    var stack: seq<nat> := [];
    var totalCandidates := 0;
    var depth := 0;
    GreedyStart(views, all);
    for idx := 0 to |views|
      invariant Greedy(views, all, idx, depth, stack, removed)
      invariant totalCandidates == |stack| + |removed|
    {
      ghost var before := stack;
      ghost var was := depth;
      GreedyFacts(views, all, idx, depth, stack, removed);
      match views[idx] {
        case Invoke =>
          depth := depth + 1;
          GreedyStep(views, all, idx, was, before, removed);
        case Return(_) =>
          if IsCandidate(views[idx], host, decoders, allowFuzzy) {
            totalCandidates := totalCandidates + 1;
            stack := stack + [idx];
          }
          depth := depth - 1;
          if depth < 0 {
            GreedyPop(views, all, idx, was, before, removed);
            if stack == [] {
              return None;
            }
            var removeIdx := stack[|stack| - 1];
            stack := stack[..|stack| - 1];
            removed := removed + {removeIdx};
            depth := depth + 1;
          } else {
            GreedyStep(views, all, idx, was, before, removed);
          }
        case Other =>
          GreedyStep(views, all, idx, was, before, removed);
      }
    }
    GreedyEnd(views, all, depth, stack, removed);
    if totalCandidates < mismatch || |removed| != mismatch {
      return None;
    }
    var ok := Validate(views, removed);
    r := if ok then Some(removed) else None;
  }

  lemma GreedyStart(views: seq<CleanEventView>, all: set<nat>)
    requires AreReturns(views, all)
    ensures Greedy(views, all, 0, 0, [], {})
  {
    assert Prefix({}, 0) == {};
  }

  /** What the loop reads off the invariant. */
  lemma GreedyFacts(views: seq<CleanEventView>, all: set<nat>, idx: nat, depth: int, stack: seq<nat>, removed: set<nat>)
    requires idx < |views| && Greedy(views, all, idx, depth, stack, removed)
    ensures depth >= 0 && (idx in all ==> views[idx].Return?)
    ensures forall i <- removed :: i < idx
    ensures forall i <- stack :: i !in removed
  {
  }

  /** The cleaner's answer: nothing to do on equal counts, nothing possible on a truncated trace, otherwise
      the latest returns that match exactly or, failing that, the latest that match at all. */
  ghost predicate IsRemovals(views: seq<CleanEventView>, host: HostFunctionValues, decoders: Decoders, r: Option<set<nat>>) {
    var surplus := -Depth(views, {}, |views|);
    var exact := Candidates(views, host, decoders, false);
    if surplus == 0 then r == Some({})
    else if surplus < 0 then r == None
    else if exists s :: Rebalances(views, exact, s) then r.Some? && Answers(views, exact, r)
    else Answers(views, Candidates(views, host, decoders, true), r)
  }

  method OrphanReturnRemovals(views: seq<CleanEventView>, host: HostFunctionValues, decoders: Decoders) returns (r: Option<set<nat>>)
    ensures IsRemovals(views, host, decoders, r)
  {
    hide Rebalances, Latest, Candidates;
    var invokes, returns_ := 0, 0;
    for idx := 0 to |views|
      invariant invokes - returns_ == Depth(views, {}, idx)
    {
      match views[idx]
      case Invoke => invokes := invokes + 1;
      case Return(_) => returns_ := returns_ + 1;
      case Other =>
    }
    if invokes == returns_ {
      return Some({});
    }
    if returns_ < invokes {
      return None;
    }
    r := Attempt(views, host, decoders, returns_ - invokes, false);
    if r == None {
      r := Attempt(views, host, decoders, returns_ - invokes, true);
    }
  }

  lemma RemovalsAreUnique(views: seq<CleanEventView>, host: HostFunctionValues, decoders: Decoders, q: Option<set<nat>>, r: Option<set<nat>>)
    requires IsRemovals(views, host, decoders, q) && IsRemovals(views, host, decoders, r)
    ensures q == r
  {
    hide Rebalances, Latest, Candidates, Depth;
    forall all | AreReturns(views, all) && Answers(views, all, q) && Answers(views, all, r)
      ensures q == r
    {
      if q.Some? && r.Some? {
        LatestIsUnique(views, all, q.value, r.value);
      }
    }
  }

  // ---- is the cleaned trace balanced? ------------------------------------------------------------------

  /** Equal numbers of invokes and returns do not make a balanced trace, yet the cleaner leaves one alone. */
  lemma EqualCountsMayBeUnbalanced(host: HostFunctionValues, decoders: Decoders)
    ensures var views := [Return(None), Invoke]; IsRemovals(views, host, decoders, Some({})) && !Balanced(views, {})
  {
    var views := [Return(None), Invoke];
    assert Depth(views, {}, 1) == -1;
    assert Depth(views, {}, 2) == 0;
  }

  /** A cleaned trace is balanced exactly if returns outnumbered invokes to begin with, or no prefix of the
      trace returned from an empty stack. */
  lemma CleanedIsBalanced(views: seq<CleanEventView>, host: HostFunctionValues, decoders: Decoders, r: Option<set<nat>>)
    requires IsRemovals(views, host, decoders, r) && r.Some?
    ensures Balanced(views, r.value) <==> Depth(views, {}, |views|) < 0 || NeverNegative(views, {}, |views|)
  {
    hide Latest, Candidates, Depth;
  }

  // ---- when is there anything to remove? --------------------------------------------------------------

  /** Up to every point there are candidates for all returns from an empty stack, and no more returns are
      missing their invoke there than in the whole trace. */
  ghost predicate Attributable(views: seq<CleanEventView>, all: set<nat>) {
    forall k :: 0 <= k <= |views| ==>
      Depth(views, {}, |views|) <= Depth(views, {}, k) && Depth(views, {}, k) + |Prefix(all, k)| >= 0
  }

  ghost function Earliest(all: set<nat>, m: nat): set<nat> {
    set i | i in all && |Prefix(all, i)| < m
  }

  lemma {:induction false} EarliestPrefix(all: set<nat>, m: nat, k: nat)
    ensures |Prefix(Earliest(all, m), k)| == if |Prefix(all, k)| < m then |Prefix(all, k)| else m
  {
    hide Prefix;
    NothingBefore(all);
    NothingBefore(Earliest(all, m));
    if k > 0 {
      EarliestPrefix(all, m, k - 1);
      PrefixStep(all, k - 1);
      PrefixStep(Earliest(all, m), k - 1);
    }
  }

  lemma RebalancedIsAttributable(views: seq<CleanEventView>, all: set<nat>, s: set<nat>, k: nat)
    requires AreReturns(views, all) && Rebalances(views, all, s) && k <= |views|
    ensures Depth(views, {}, |views|) <= Depth(views, {}, k) && Depth(views, {}, k) + |Prefix(all, k)| >= 0
  {
    hide Depth;
    DepthSplits(views, s, k);
    RebalancingSize(views, all, s);
    SubsetSize(Prefix(s, k), s);
    SubsetSize(Prefix(s, k), Prefix(all, k));
    assert Depth(views, s, k) >= 0;
  }

  lemma EarliestRebalances(views: seq<CleanEventView>, all: set<nat>)
    requires AreReturns(views, all) && Attributable(views, all)
    ensures Depth(views, {}, 0) == 0 >= Depth(views, {}, |views|)
    ensures Rebalances(views, all, Earliest(all, -Depth(views, {}, |views|)))
  {
    assert Depth(views, {}, 0) == 0;
    var m := -Depth(views, {}, |views|);
    hide Depth, Earliest, Prefix;
    EarliestIsPart(all, m);
    var s := Earliest(all, m);
    forall k | 0 <= k <= |views| ensures Depth(views, s, k) >= 0 && (k == |views| ==> Depth(views, s, k) == 0) {
      DepthSplits(views, s, k);
      EarliestPrefix(all, m, k);
      assert Depth(views, {}, |views|) <= Depth(views, {}, k);
    }
  }

  lemma EarliestIsPart(all: set<nat>, m: nat)
    ensures Earliest(all, m) <= all
  {
  }

  /** Counting decides whether some set of candidates rebalances the trace. */
  lemma AttributableIff(views: seq<CleanEventView>, all: set<nat>)
    requires AreReturns(views, all)
    ensures (exists s :: Rebalances(views, all, s)) <==> Attributable(views, all)
  {
    hide Depth, Rebalances, Earliest;
    if s :| Rebalances(views, all, s) {
      forall k | 0 <= k <= |views|
        ensures Depth(views, {}, |views|) <= Depth(views, {}, k) && Depth(views, {}, k) + |Prefix(all, k)| >= 0
      {
        RebalancedIsAttributable(views, all, s, k);
      }
    } else if Attributable(views, all) {
      EarliestRebalances(views, all);
    }
  }

  /** The cleaner gives up exactly if the counts differ and cannot be made up for by candidates of any kind. */
  lemma CleanerAnswersIff(views: seq<CleanEventView>, values: HostFunctionValues, decoders: Decoders, r: Option<set<nat>>)
    requires IsRemovals(views, values, decoders, r)
    ensures r.Some? <==> Depth(views, {}, |views|) == 0 || Attributable(views, Candidates(views, values, decoders, true))
  {
    hide Latest, Candidates;
    assert Depth(views, {}, 0) == 0;
    hide Depth;
    var exact, fuzzy := Candidates(views, values, decoders, false), Candidates(views, values, decoders, true);
    ExactIsFuzzy(views, values, decoders);
    AttributableIff(views, fuzzy);
    assert forall s :: Rebalances(views, exact, s) ==> Rebalances(views, fuzzy, s);
  }

  lemma ExactIsFuzzy(views: seq<CleanEventView>, values: HostFunctionValues, decoders: Decoders)
    ensures Candidates(views, values, decoders, false) <= Candidates(views, values, decoders, true)
  {
  }

  // ---- does the cleaner find the host returns? --------------------------------------------------------

  /** A removed return `i` and a later candidate `g` left in place, with a call open all the time between:
      removing `g` instead of `i` balances the trace just as well. */
  ghost predicate Exchangeable(views: seq<CleanEventView>, all: set<nat>, s: set<nat>, i: nat, g: nat) {
    && i in s && g in all && g !in s && i < g < |views|
    && forall k :: i < k <= g ==> Depth(views, s, k) >= 1
  }

  lemma ExchangeDepth(views: seq<CleanEventView>, all: set<nat>, s: set<nat>, i: nat, g: nat, k: nat)
    requires AreReturns(views, all) && s <= all && k <= |views| && i in s && g in all && g !in s && i < g
    ensures |Prefix(s - {i} + {g}, k)| == |Prefix(s, k)| - (if i < k <= g then 1 else 0)
    ensures Depth(views, s - {i} + {g}, k) == Depth(views, s, k) - (if i < k <= g then 1 else 0)
  {
    hide Depth;
    PrefixAdd(s - {i}, i, k);
    assert s - {i} + {i} == s;
    PrefixAdd(s - {i}, g, k);
    DepthSplits(views, s, k);
    DepthSplits(views, s - {i} + {g}, k);
  }

  lemma ExchangeIsLater(views: seq<CleanEventView>, all: set<nat>, s: set<nat>, i: nat, g: nat)
    requires AreReturns(views, all) && Rebalances(views, all, s) && Exchangeable(views, all, s, i, g)
    ensures !Latest(views, all, s)
  {
    hide Depth, Latest;
    var t := s - {i} + {g};
    forall k | 0 <= k <= |views|
      ensures Depth(views, t, k) >= 0 && (k == |views| ==> Depth(views, t, k) == 0)
    {
      ExchangeDepth(views, all, s, i, g, k);
    }
    assert Rebalances(views, all, t);
    ExchangeDepth(views, all, s, i, g, i + 1);
    NotLatest(views, all, s, t, i + 1);
  }

  lemma NotLatest(views: seq<CleanEventView>, all: set<nat>, s: set<nat>, t: set<nat>, k: nat)
    requires Rebalances(views, all, t) && k <= |views| && |Prefix(t, k)| < |Prefix(s, k)|
    ensures !Latest(views, all, s)
  {
  }

  lemma NothingBefore(s: set<nat>)
    ensures Prefix(s, 0) == {}
  {
  }

  /** The last point before `k` up to which `t` removes as much as `s`. */
  lemma {:induction false} LastEqual(s: set<nat>, t: set<nat>, k: nat) returns (a: nat)
    requires |Prefix(t, k)| < |Prefix(s, k)|
    ensures a < k && a in s && a !in t
    ensures forall j :: a < j <= k ==> |Prefix(t, j)| < |Prefix(s, j)|
  {
    hide Prefix;
    NothingBefore(s);
    PrefixStep(s, k - 1);
    PrefixStep(t, k - 1);
    if |Prefix(t, k - 1)| < |Prefix(s, k - 1)| {
      a := LastEqual(s, t, k - 1);
    } else {
      a := k - 1;
    }
  }

  /** The next point after `k` up to which `t` removes as much as `s`. */
  lemma {:induction false} NextEqual(s: set<nat>, t: set<nat>, k: nat, n: nat) returns (b: nat)
    requires k <= n && |Prefix(t, k)| < |Prefix(s, k)| && |Prefix(t, n)| >= |Prefix(s, n)|
    ensures k <= b < n && b in t && b !in s
    ensures forall j :: k <= j <= b ==> |Prefix(t, j)| < |Prefix(s, j)|
    decreases n - k
  {
    hide Prefix;
    PrefixStep(s, k);
    PrefixStep(t, k);
    if |Prefix(t, k + 1)| < |Prefix(s, k + 1)| {
      b := NextEqual(s, t, k + 1, n);
    } else {
      b := k;
    }
  }

  lemma LaterGivesExchange(views: seq<CleanEventView>, all: set<nat>, s: set<nat>, t: set<nat>, k: nat) returns (i: nat, g: nat)
    requires AreReturns(views, all) && Rebalances(views, all, s) && Rebalances(views, all, t)
    requires k <= |views| && |Prefix(t, k)| < |Prefix(s, k)|
    ensures Exchangeable(views, all, s, i, g)
  {
    hide Depth;
    RebalancingSize(views, all, s);
    RebalancingSize(views, all, t);
    WholePrefix(views, s);
    WholePrefix(views, t);
    i := LastEqual(s, t, k);
    g := NextEqual(s, t, k, |views|);
    forall j | i < j <= g ensures Depth(views, s, j) >= 1 {
      DepthSplits(views, s, j);
      DepthSplits(views, t, j);
      assert Depth(views, t, j) >= 0;
    }
  }

  /** The returns `host` are among the candidates, and none is followed, before all calls have closed, by another
      candidate left in place. */
  ghost predicate StandsOut(views: seq<CleanEventView>, all: set<nat>, host: set<nat>) {
    host <= all && !exists i, g :: Exchangeable(views, all, host, i, g)
  }

  /** A rebalancing set is the latest one exactly if it stands out. */
  lemma LatestIff(views: seq<CleanEventView>, all: set<nat>, s: set<nat>)
    requires AreReturns(views, all) && Rebalances(views, all, s)
    ensures Latest(views, all, s) <==> StandsOut(views, all, s)
  {
    hide Depth, Exchangeable, Latest;
    if i, g :| Exchangeable(views, all, s, i, g) {
      ExchangeIsLater(views, all, s, i, g);
    } else {
      NoExchangeIsLatest(views, all, s);
    }
  }

  /** The host returns can be told from the genuine ones: they stand out among the exact matches, or, if exact matches
      cannot make up for the surplus, among all matches. */
  ghost predicate Tellable(views: seq<CleanEventView>, values: HostFunctionValues, decoders: Decoders, host: set<nat>) {
    var exact := Candidates(views, values, decoders, false);
    StandsOut(views, exact, host) || (!Attributable(views, exact) && StandsOut(views, Candidates(views, values, decoders, true), host))
  }

  /** If the trace is a balanced one with the returns `host` spliced in, each matching in either way, then the
      cleaner takes out those and no others exactly if they can be told. */
  lemma CleanerFindsHostReturns(views: seq<CleanEventView>, values: HostFunctionValues, decoders: Decoders, host: set<nat>)
    requires host <= Candidates(views, values, decoders, true) && Balanced(views, host)
    ensures IsRemovals(views, values, decoders, Some(host)) <==> Tellable(views, values, decoders, host)
  {
    hide Candidates, Depth, Latest, Balanced, Attributable, StandsOut;
    var exact, fuzzy := Candidates(views, values, decoders, false), Candidates(views, values, decoders, true);
    RebalancingSize(views, fuzzy, host);
    AttributableIff(views, exact);
    LatestIff(views, fuzzy, host);
    StandsAmong(views, exact, host);
    if host <= exact {
      LatestIff(views, exact, host);
      if host == {} {
        EmptyStandsOut(views, exact);
      }
    }
  }

  lemma StandsAmong(views: seq<CleanEventView>, all: set<nat>, host: set<nat>)
    ensures StandsOut(views, all, host) ==> host <= all
  {
  }

  lemma EmptyStandsOut(views: seq<CleanEventView>, all: set<nat>)
    ensures StandsOut(views, all, {})
  {
  }

  /** In particular they are found whenever no genuine return looks like a host function's answer. */
  lemma CleanerFindsAllCandidates(views: seq<CleanEventView>, values: HostFunctionValues, decoders: Decoders)
    requires Balanced(views, Candidates(views, values, decoders, true))
    ensures IsRemovals(views, values, decoders, Some(Candidates(views, values, decoders, true)))
  {
    hide Candidates, Depth, Balanced, Attributable;
    var exact, host := Candidates(views, values, decoders, false), Candidates(views, values, decoders, true);
    ExactIsFuzzy(views, values, decoders);
    CleanerFindsHostReturns(views, values, decoders, host);
    AttributableIff(views, exact);
    if s :| Rebalances(views, exact, s) {
      RebalancingSize(views, exact, s);
      RebalancingSize(views, host, host);
      WholeSubset(s, host);
    }
  }

  lemma WholeSubset(s: set<nat>, t: set<nat>)
    requires s <= t && |s| == |t|
    ensures s == t
  {
    assert t == (t - s) + s;
  }

  lemma NoExchangeIsLatest(views: seq<CleanEventView>, all: set<nat>, s: set<nat>)
    requires AreReturns(views, all) && Rebalances(views, all, s)
    requires !exists i, g :: Exchangeable(views, all, s, i, g)
    ensures Latest(views, all, s)
  {
    hide Exchangeable, Depth, Rebalances;
    forall t, k | Rebalances(views, all, t) && 0 <= k <= |views|
      ensures |Prefix(s, k)| <= |Prefix(t, k)|
    {
      if |Prefix(t, k)| < |Prefix(s, k)| {
        var i, g := LaterGivesExchange(views, all, s, t, k);
        assert false;
      }
    }
  }
}
