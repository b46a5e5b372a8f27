/** Effective fee rates within one block: transactions joined by in-block parent links share one rate. */
module PackageRates {
  import opened Collections
  import opened TxGraph
  import opened TemplateSpec

  predicate IsParent(txs: Mempool, p: Txid, t: Txid) {
    t in txs && p in txs[t].inputs
  }

  predicate Adjacent(txs: Mempool, block: set<Txid>, a: Txid, b: Txid) {
    a in block && b in block && (IsParent(txs, a, b) || IsParent(txs, b, a))
  }

  ghost predicate ClosedUnder(txs: Mempool, block: set<Txid>, c: set<Txid>) {
    forall a, b :: a in c && Adjacent(txs, block, a, b) ==> b in c
  }

  /** A connected component: closed under in-block links, and no proper part of it is. */
  ghost predicate IsComponent(txs: Mempool, block: set<Txid>, c: set<Txid>) {
    && c != {} && c <= block && ClosedUnder(txs, block, c)
    && forall d :: d <= c && d != {} && ClosedUnder(txs, block, d) ==> d == c
  }

  /** Components that meet are the same. */
  lemma ComponentsAreDisjoint(txs: Mempool, block: set<Txid>, c: set<Txid>, d: set<Txid>)
    requires IsComponent(txs, block, c) && IsComponent(txs, block, d) && c * d != {}
    ensures c == d
  {
    var e := c * d;
    assert ClosedUnder(txs, block, e);
    assert e <= c && e <= d;
  }

  // ---- rates ----------------------------------------------------------------------------------------

  ghost function Fees(txs: Mempool, c: set<Txid>): map<Txid, nat> {
    map t | t in c :: if t in txs then txs[t].feeSat else 0
  }

  ghost function Sizes(txs: Mempool, c: set<Txid>): map<Txid, nat> {
    map t | t in c :: if t !in txs then 0 else if txs[t].vsize == 0 then 1 else txs[t].vsize
  }

  ghost function TotalFee(txs: Mempool, c: set<Txid>): nat {
    SumOver(Fees(txs, c), c)
  }

  ghost function TotalVsize(txs: Mempool, c: set<Txid>): nat {
    SumOver(Sizes(txs, c), c)
  }

  function OwnRate(txs: Mempool, selected: map<Txid, real>, t: Txid): real {
    if t in selected then selected[t] else if t in txs then txs[t].feeRate else 0.0
  }

  function CommonRate(fee: nat, vsize: nat, members: nat, own: real): real {
    if members > 1 && vsize > 0 then fee as real / vsize as real else own
  }

  ghost function RateIn(txs: Mempool, selected: map<Txid, real>, c: set<Txid>, t: Txid): real {
    CommonRate(TotalFee(txs, c), TotalVsize(txs, c), |c|, OwnRate(txs, selected, t))
  }

  ghost predicate HasItsRate(txs: Mempool, block: set<Txid>, selected: map<Txid, real>, t: Txid, rate: real) {
    exists c :: IsComponent(txs, block, c) && t in c && rate == RateIn(txs, selected, c, t)
  }

  /** What the rates mean: every member of a component with more than one transaction, one of them known to the
      store, carries the rate whose product with the component's size is the component's fee. */
  lemma SharedRate(txs: Mempool, block: set<Txid>, selected: map<Txid, real>, c: set<Txid>, t: Txid, rate: real)
    requires IsComponent(txs, block, c) && t in c && HasItsRate(txs, block, selected, t, rate)
    requires |c| > 1 && exists u :: u in c && u in txs
    ensures rate * TotalVsize(txs, c) as real == TotalFee(txs, c) as real
  {
    hide IsComponent, TotalVsize, TotalFee;
    var d :| IsComponent(txs, block, d) && t in d && rate == RateIn(txs, selected, d, t);
    assert t in c * d;
    ComponentsAreDisjoint(txs, block, c, d);
    SizeIsPositive(txs, c);
  }

  /** A transaction without in-block relatives carries the rate it was selected at, or its own if it has none, or
      nothing if the store does not know it; and so does one among relatives that the store does not know. */
  lemma LoneRate(txs: Mempool, block: set<Txid>, selected: map<Txid, real>, c: set<Txid>, t: Txid, rate: real)
    requires IsComponent(txs, block, c) && t in c && HasItsRate(txs, block, selected, t, rate)
    requires |c| == 1 || forall u <- c :: u !in txs
    ensures t in selected ==> rate == selected[t]
    ensures t !in selected && t in txs ==> rate == txs[t].feeRate
    ensures t !in selected && t !in txs ==> rate == 0.0
  {
    hide IsComponent, TotalVsize, TotalFee;
    var d :| IsComponent(txs, block, d) && t in d && rate == RateIn(txs, selected, d, t);
    assert t in c * d;
    ComponentsAreDisjoint(txs, block, c, d);
    if forall u <- c :: u !in txs {
      UnknownHasNoSize(txs, c);
    }
  }

  lemma UnknownHasNoSize(txs: Mempool, c: set<Txid>)
    requires forall u <- c :: u !in txs
    ensures TotalVsize(txs, c) == 0
  {
    SumOfZeros(Sizes(txs, c), c);
  }

  lemma {:induction false} SumOfZeros(f: map<Txid, nat>, c: set<Txid>)
    requires c <= f.Keys && forall u <- c :: f[u] == 0
    ensures SumOver(f, c) == 0
    decreases |c|
  {
    if c != {} {
      var u :| u in c;
      SumRemove(f, c, u);
      SumOfZeros(f, c - {u});
    }
  }

  lemma SizeIsPositive(txs: Mempool, c: set<Txid>)
    requires exists u :: u in c && u in txs
    ensures TotalVsize(txs, c) > 0
  {
    var u :| u in c && u in txs;
    SumRemove(Sizes(txs, c), c, u);
  }

  // ---- the search ----------------------------------------------------------------------------------------

  type Links = map<Txid, seq<Txid>>

  ghost predicate LinksAre(graph: Links, txs: Mempool, block: set<Txid>) {
    && graph.Keys == block
    && forall a, b :: a in block ==> (b in graph[a] <==> Adjacent(txs, block, a, b))
  }

  function At(graph: Links, a: Txid): seq<Txid> {
    if a in graph then graph[a] else []
  }

  /** The links are those of the transactions in `done` to their parents, and of `t` to the parents in `inputs`. */
  ghost predicate LinksPartly(graph: Links, txs: Mempool, block: set<Txid>, done: set<Txid>, t: Txid, inputs: seq<Txid>) {
    && done <= graph.Keys <= block
    && forall a, b :: b in At(graph, a) <==> a in block && b in block && Joins(txs, done, t, inputs, a, b)
  }

  ghost predicate Joins(txs: Mempool, done: set<Txid>, t: Txid, inputs: seq<Txid>, a: Txid, b: Txid) {
    (a in done && IsParent(txs, b, a)) || (b in done && IsParent(txs, a, b)) || (a == t && b in inputs) || (b == t && a in inputs)
  }

  function Link(graph: Links, a: Txid, b: Txid): Links {
    graph[a := At(graph, a) + [b]]
  }

  lemma LinkAdds(graph: Links, a: Txid, b: Txid, x: Txid, y: Txid)
    ensures y in At(Link(graph, a, b), x) <==> y in At(graph, x) || (x == a && y == b)
  {
  }

  lemma LinkBoth(graph: Links, txs: Mempool, block: set<Txid>, done: set<Txid>, t: Txid, inputs: seq<Txid>, p: Txid)
    requires LinksPartly(graph, txs, block, done, t, inputs) && t in block
    ensures p in block ==> LinksPartly(Link(Link(graph, t, p), p, t), txs, block, done, t, inputs + [p])
    ensures p !in block ==> LinksPartly(graph, txs, block, done, t, inputs + [p])
  {
    hide IsParent, Link, Joins;
    if p in block {
      var r := Link(Link(graph, t, p), p, t);
      LinkKeys(Link(graph, t, p), p, t);
      LinkKeys(graph, t, p);
      forall a, b ensures b in At(r, a) <==> a in block && b in block && Joins(txs, done, t, inputs + [p], a, b) {
        LinkAdds(Link(graph, t, p), p, t, a, b);
        LinkAdds(graph, t, p, a, b);
        JoinsMore(txs, done, t, inputs, p, a, b);
        assert b in At(graph, a) <==> a in block && b in block && Joins(txs, done, t, inputs, a, b);
      }
    } else {
      forall a, b ensures b in At(graph, a) <==> a in block && b in block && Joins(txs, done, t, inputs + [p], a, b) {
        JoinsMore(txs, done, t, inputs, p, a, b);
        assert b in At(graph, a) <==> a in block && b in block && Joins(txs, done, t, inputs, a, b);
      }
    }
  }

  lemma JoinsMore(txs: Mempool, done: set<Txid>, t: Txid, inputs: seq<Txid>, p: Txid, a: Txid, b: Txid)
    ensures Joins(txs, done, t, inputs + [p], a, b) <==>
            Joins(txs, done, t, inputs, a, b) || (a == t && b == p) || (b == t && a == p)
  {
    hide IsParent;
    assert a in inputs + [p] <==> a in inputs || a == p;
    assert b in inputs + [p] <==> b in inputs || b == p;
  }

  lemma LinkKeys(graph: Links, a: Txid, b: Txid)
    ensures Link(graph, a, b).Keys == graph.Keys + {a}
  {
  }

  /** After its last input, a transaction is done. */
  lemma TxIsDone(graph: Links, txs: Mempool, block: set<Txid>, done: set<Txid>, t: Txid)
    requires LinksPartly(graph, txs, block, done, t, if t in txs then txs[t].inputs else []) && t in graph
    ensures LinksPartly(graph, txs, block, done + {t}, t, [])
  {
    hide At, Joins;
    var inputs := if t in txs then txs[t].inputs else [];
    forall a, b ensures b in At(graph, a) <==> a in block && b in block && Joins(txs, done + {t}, t, [], a, b) {
      JoinsDone(txs, done, t, inputs, a, b);
      assert b in At(graph, a) <==> a in block && b in block && Joins(txs, done, t, inputs, a, b);
    }
  }

  lemma JoinsDone(txs: Mempool, done: set<Txid>, t: Txid, inputs: seq<Txid>, a: Txid, b: Txid)
    requires inputs == if t in txs then txs[t].inputs else []
    ensures Joins(txs, done, t, inputs, a, b) <==> Joins(txs, done + {t}, t, [], a, b)
  {
    assert IsParent(txs, b, t) <==> b in inputs;
    assert IsParent(txs, a, t) <==> a in inputs;
  }

  method AddTx(graph: Links, txs: Mempool, block: set<Txid>, ghost done: set<Txid>, t: Txid) returns (r: Links)
    requires LinksPartly(graph, txs, block, done, t, []) && t in block
    ensures LinksPartly(r, txs, block, done + {t}, t, [])
  {
    hide LinksPartly;
    r := graph[t := At(graph, t)];
    ghost var touched := r;
    TouchKeeps(graph, txs, block, done, t);
    if t in txs {
      var inputs := txs[t].inputs;
      for i := 0 to |inputs|
        invariant LinksPartly(r, txs, block, done, t, inputs[..i]) && t in r
      {
        assert inputs[..i + 1] == inputs[..i] + [inputs[i]];
        LinkBoth(r, txs, block, done, t, inputs[..i], inputs[i]);
        if inputs[i] in block {
          r := Link(Link(r, t, inputs[i]), inputs[i], t);
        }
      }
      assert inputs[..|inputs|] == inputs;
    }
    TxIsDone(r, txs, block, done, t);
  }

  lemma TouchKeeps(graph: Links, txs: Mempool, block: set<Txid>, done: set<Txid>, t: Txid)
    requires LinksPartly(graph, txs, block, done, t, []) && t in block
    ensures LinksPartly(graph[t := At(graph, t)], txs, block, done, t, [])
  {
    hide Joins;
    var r := graph[t := At(graph, t)];
    assert forall a :: At(r, a) == At(graph, a);
  }

  lemma NextTx(graph: Links, txs: Mempool, block: set<Txid>, done: set<Txid>, t: Txid, u: Txid)
    requires LinksPartly(graph, txs, block, done, t, [])
    ensures LinksPartly(graph, txs, block, done, u, [])
  {
    hide At, IsParent;
    forall a, b ensures b in At(graph, a) <==> a in block && b in block && Joins(txs, done, u, [], a, b) {
      assert Joins(txs, done, t, [], a, b) <==> Joins(txs, done, u, [], a, b);
    }
  }

  method BuildLinks(blockTxs: seq<Txid>, txs: Mempool) returns (graph: Links)
    ensures LinksAre(graph, txs, Elements(blockTxs))
  {
    hide LinksPartly;
    graph := map[];
    var block := set t | t in blockTxs;
    StartLinks(txs, block);
    assert Elements(blockTxs[..0]) == {};
    for i := 0 to |blockTxs|
      invariant LinksPartly(graph, txs, block, Elements(blockTxs[..i]), 0, [])
    {
      NextTx(graph, txs, block, Elements(blockTxs[..i]), 0, blockTxs[i]);
      graph := AddTx(graph, txs, block, Elements(blockTxs[..i]), blockTxs[i]);
      assert Elements(blockTxs[..i + 1]) == Elements(blockTxs[..i]) + {blockTxs[i]};
      NextTx(graph, txs, block, Elements(blockTxs[..i + 1]), blockTxs[i], 0);
    }
    assert blockTxs[..|blockTxs|] == blockTxs;
    LinksComplete(graph, txs, block);
  }

  lemma StartLinks(txs: Mempool, block: set<Txid>)
    ensures LinksPartly(map[], txs, block, {}, 0, [])
  {
  }

  lemma LinksComplete(graph: Links, txs: Mempool, block: set<Txid>)
    requires LinksPartly(graph, txs, block, block, 0, [])
    ensures LinksAre(graph, txs, block)
  {
    hide IsParent;
    forall a, b | a in block ensures b in graph[a] <==> Adjacent(txs, block, a, b) {
      assert b in At(graph, a) <==> b in graph[a];
      assert b in At(graph, a) <==> a in block && b in block && Joins(txs, block, 0, [], a, b);
    }
  }

  /** Whatever is closed and holds `root` holds all of `s`. */
  ghost predicate Reached(txs: Mempool, block: set<Txid>, root: Txid, s: set<Txid>) {
    forall e :: root in e && ClosedUnder(txs, block, e) ==> s <= e
  }

  /** The search from `root`: `before` is closed, `seen` is `before` plus the component so far and the stack, and only
      the stack, and in it the neighbours of `open` not yet looked at, may have links out of `seen`. */
  ghost predicate Searching(
    txs: Mempool, block: set<Txid>, before: set<Txid>, root: Txid, component: seq<Txid>, stack: seq<Txid>, seen: set<Txid>)
  {
    && Distinct(component) && Distinct(stack) && Elements(component) !! Elements(stack)
    && seen == before + (Elements(component) + Elements(stack)) && before !! Elements(component) + Elements(stack)
    && seen <= block && root in seen && root !in before
    && Reached(txs, block, root, Elements(component) + Elements(stack))
  }

  ghost predicate LooksAt(txs: Mempool, block: set<Txid>, a: Txid, seen: set<Txid>) {
    forall b :: Adjacent(txs, block, a, b) ==> b in seen
  }

  ghost predicate AllLookedAt(txs: Mempool, block: set<Txid>, component: seq<Txid>, seen: set<Txid>) {
    forall a <- component :: LooksAt(txs, block, a, seen)
  }

  lemma PushKeeps(
    txs: Mempool, block: set<Txid>, before: set<Txid>, root: Txid, component: seq<Txid>, stack: seq<Txid>, seen: set<Txid>,
    cur: Txid, next: Txid)
    requires Searching(txs, block, before, root, component, stack, seen)
    requires cur in component && Adjacent(txs, block, cur, next) && next !in seen
    ensures Searching(txs, block, before, root, component, stack + [next], seen + {next})
  {
    assert Elements(stack + [next]) == Elements(stack) + {next};
    var all := Elements(component) + Elements(stack);
    forall e | root in e && ClosedUnder(txs, block, e) ensures all + {next} <= e {
      assert all <= e;
      assert cur in e;
    }
    assert Elements(component) + Elements(stack + [next]) == all + {next};
  }

  lemma PopKeeps(
    txs: Mempool, block: set<Txid>, before: set<Txid>, root: Txid, component: seq<Txid>, stack: seq<Txid>, seen: set<Txid>)
    requires Searching(txs, block, before, root, component, stack, seen) && stack != []
    ensures Searching(txs, block, before, root, component + [stack[|stack| - 1]], stack[..|stack| - 1], seen)
  {
    hide Reached;
    var n := |stack| - 1;
    var cur := stack[n];
    assert stack == stack[..n] + [cur];
    assert Elements(stack) == Elements(stack[..n]) + {cur};
    assert Elements(component + [cur]) == Elements(component) + {cur};
    assert cur in Elements(stack);
    assert Elements(component + [cur]) + Elements(stack[..n]) == Elements(component) + Elements(stack);
  }

  method PushNeighbours(
    graph: Links, ghost txs: Mempool, ghost block: set<Txid>, ghost before: set<Txid>, ghost root: Txid,
    ghost component: seq<Txid>, cur: Txid, stack0: seq<Txid>, seen0: set<Txid>) returns (stack: seq<Txid>, seen: set<Txid>)
    requires LinksAre(graph, txs, block) && Searching(txs, block, before, root, component, stack0, seen0)
    requires cur in component && cur in block
    ensures Searching(txs, block, before, root, component, stack, seen) && seen0 <= seen
    ensures LooksAt(txs, block, cur, seen)
  {
    hide Searching;
    stack, seen := stack0, seen0;
    var neighbours := graph[cur];
    for i := 0 to |neighbours|
      invariant Searching(txs, block, before, root, component, stack, seen) && seen0 <= seen
      invariant forall b <- neighbours[..i] :: b in seen
    {
      var next := neighbours[i];
      assert next in neighbours;
      if next !in seen {
        PushKeeps(txs, block, before, root, component, stack, seen, cur, next);
        seen := seen + {next};
        stack := stack + [next];
      }
    }
    assert neighbours[..|neighbours|] == neighbours;
  }

  lemma ComponentIsComplete(
    txs: Mempool, block: set<Txid>, before: set<Txid>, root: Txid, component: seq<Txid>, seen: set<Txid>)
    requires Searching(txs, block, before, root, component, [], seen) && AllLookedAt(txs, block, component, seen)
    requires ClosedUnder(txs, block, before)
    ensures IsComponent(txs, block, Elements(component)) && ClosedUnder(txs, block, seen)
  {
    var c := Elements(component);
    forall a, b | a in c && Adjacent(txs, block, a, b) ensures b in c {
      assert LooksAt(txs, block, a, seen);
      assert b in before ==> Adjacent(txs, block, b, a);
    }
    forall d | d <= c && d != {} && ClosedUnder(txs, block, d) ensures d == c {
      RootIsInEveryPart(txs, block, root, c, d);
    }
  }

  /** A closed part without the root would leave a closed rest that the search never left. */
  lemma RootIsInEveryPart(txs: Mempool, block: set<Txid>, root: Txid, c: set<Txid>, d: set<Txid>)
    requires Reached(txs, block, root, c) && root in c && ClosedUnder(txs, block, c)
    requires d <= c && d != {} && ClosedUnder(txs, block, d)
    ensures d == c
  {
    var rest := c - d;
    forall a, b | a in rest && Adjacent(txs, block, a, b) ensures b in rest {
      assert Adjacent(txs, block, b, a);
    }
    assert root in rest ==> c <= rest;
    assert root in d ==> c <= d;
  }

  lemma SearchStarts(txs: Mempool, block: set<Txid>, before: set<Txid>, root: Txid)
    requires before <= block && root in block && root !in before
    ensures Searching(txs, block, before, root, [], [root], before + {root})
  {
    assert Elements([root]) == {root};
  }

  lemma LookStep(
    txs: Mempool, block: set<Txid>, before: set<Txid>, root: Txid, component: seq<Txid>, cur: Txid, stack: seq<Txid>, seen: set<Txid>, seen': set<Txid>)
    requires AllLookedAt(txs, block, component, seen) && seen <= seen' && LooksAt(txs, block, cur, seen')
    requires Searching(txs, block, before, root, component + [cur], stack, seen')
    ensures AllLookedAt(txs, block, component + [cur], seen')
    ensures |block - Elements(component + [cur])| < |block - Elements(component)|
  {
    hide Reached, LooksAt, Searching;
    forall a <- component + [cur] ensures LooksAt(txs, block, a, seen') {
      if a in component {
        LooksAtMore(txs, block, a, seen, seen');
      }
    }
    SearchIsDistinct(txs, block, before, root, component + [cur], stack, seen');
    OneFewer(block, component, cur);
  }

  lemma LooksAtMore(txs: Mempool, block: set<Txid>, a: Txid, seen: set<Txid>, seen': set<Txid>)
    requires LooksAt(txs, block, a, seen) && seen <= seen'
    ensures LooksAt(txs, block, a, seen')
  {
  }

  lemma SearchIsDistinct(txs: Mempool, block: set<Txid>, before: set<Txid>, root: Txid, component: seq<Txid>, stack: seq<Txid>, seen: set<Txid>)
    requires Searching(txs, block, before, root, component, stack, seen)
    ensures Distinct(component) && Elements(component) <= block
  {
  }

  lemma OneFewer(block: set<Txid>, component: seq<Txid>, cur: Txid)
    requires Distinct(component + [cur]) && Elements(component + [cur]) <= block
    ensures |block - Elements(component + [cur])| < |block - Elements(component)|
  {
    var longer := component + [cur];
    assert longer[|component|] == cur;
    assert cur in Elements(longer);
    assert forall k :: 0 <= k < |component| ==> longer[k] == component[k];
    assert Elements(longer) == Elements(component) + {cur};
    SmallerSet(block - Elements(longer), block - Elements(component));
  }

  lemma SearchFacts(txs: Mempool, block: set<Txid>, before: set<Txid>, root: Txid, component: seq<Txid>, stack: seq<Txid>, seen: set<Txid>)
    requires Searching(txs, block, before, root, component, stack, seen)
    ensures forall t <- component :: t in block
    ensures stack == [] ==> Distinct(component) && root in component && seen == before + Elements(component) && before !! Elements(component) && seen <= block
  {
    hide Reached;
    forall t <- component ensures t in block {
      assert t in Elements(component);
    }
  }

  method FindComponent(graph: Links, ghost txs: Mempool, ghost block: set<Txid>, before: set<Txid>, root: Txid)
    returns (component: seq<Txid>, seen: set<Txid>)
    requires LinksAre(graph, txs, block) && before <= block && ClosedUnder(txs, block, before) && root in block && root !in before
    ensures Distinct(component) && IsComponent(txs, block, Elements(component)) && root in component
    ensures seen == before + Elements(component) && before !! Elements(component)
    ensures seen <= block && ClosedUnder(txs, block, seen)
  {
    hide Searching, LinksAre, ClosedUnder, IsComponent, AllLookedAt, LooksAt;
    seen := before + {root};
    var stack := [root];
    component := [];
    SearchStarts(txs, block, before, root);
    NothingLookedAt(txs, block, seen);
    while stack != []
      invariant Searching(txs, block, before, root, component, stack, seen)
      invariant AllLookedAt(txs, block, component, seen)
      decreases |block - Elements(component)|
    {
      PopKeeps(txs, block, before, root, component, stack, seen);
      var cur := stack[|stack| - 1];
      ghost var open, seen0 := component, seen;
      stack := stack[..|stack| - 1];
      component := component + [cur];
      SearchFacts(txs, block, before, root, component, stack, seen);
      assert component[|open|] == cur;
      stack, seen := PushNeighbours(graph, txs, block, before, root, component, cur, stack, seen);
      LookStep(txs, block, before, root, open, cur, stack, seen0, seen);
    }
    ComponentIsComplete(txs, block, before, root, component, seen);
    SearchFacts(txs, block, before, root, component, stack, seen);
  }

  lemma NothingLookedAt(txs: Mempool, block: set<Txid>, seen: set<Txid>)
    ensures AllLookedAt(txs, block, [], seen)
  {
  }

  // ---- the rates -------------------------------------------------------------------------------------------

  method Totals(component: seq<Txid>, txs: Mempool) returns (fee: nat, vsize: nat)
    requires Distinct(component)
    ensures fee == TotalFee(txs, Elements(component)) && vsize == TotalVsize(txs, Elements(component))
  {
    ghost var c := Elements(component);
    ghost var fees, sizes := Fees(txs, c), Sizes(txs, c);
    fee, vsize := 0, 0;
    for i := 0 to |component|
      invariant fee == SumSeq(fees, component[..i]) && vsize == SumSeq(sizes, component[..i])
    {
      var t := component[i];
      assert t in c;
      assert component[..i + 1][..i] == component[..i];
      if t in txs {
        fee := fee + txs[t].feeSat;
        vsize := vsize + AdjustedVsize(txs[t]);
      }
    }
    assert component[..|component|] == component;
    SumSeqIsSumOver(fees, component);
    SumSeqIsSumOver(sizes, component);
  }

  /** `out` adds to `out0` the rates of `done`. */
  ghost predicate Rated(
    txs: Mempool, block: set<Txid>, selected: map<Txid, real>, out0: map<Txid, real>, done: set<Txid>, out: map<Txid, real>)
  {
    && out.Keys == out0.Keys + done
    && (forall t <- out0 :: out[t] == out0[t])
    && forall t <- done :: HasItsRate(txs, block, selected, t, out[t])
  }

  lemma RatedStep(
    txs: Mempool, block: set<Txid>, selected: map<Txid, real>, out0: map<Txid, real>, done: set<Txid>, out: map<Txid, real>, t: Txid, rate: real)
    requires Rated(txs, block, selected, out0, done, out) && t !in out0 && HasItsRate(txs, block, selected, t, rate)
    ensures Rated(txs, block, selected, out0, done + {t}, out[t := rate])
  {
    hide HasItsRate;
  }

  lemma ElementsStep(s: seq<Txid>, i: nat)
    requires i < |s|
    ensures Elements(s[..i + 1]) == Elements(s[..i]) + {s[i]}
  {
  }

  method RateComponent(component: seq<Txid>, txs: Mempool, ghost block: set<Txid>, selected: map<Txid, real>, out0: map<Txid, real>)
    returns (out: map<Txid, real>)
    requires Distinct(component) && IsComponent(txs, block, Elements(component)) && out0.Keys !! Elements(component)
    ensures Rated(txs, block, selected, out0, Elements(component), out)
  {
    hide IsComponent, TotalFee, TotalVsize, HasItsRate, Distinct, CommonRate, OwnRate, Rated;
    ghost var c := Elements(component);
    var fee, vsize := Totals(component, txs);
    DistinctSize(component);
    out := out0;
    assert Rated(txs, block, selected, out0, Elements(component[..0]), out) by {
      NothingRated(txs, block, selected, out0);
      assert Elements(component[..0]) == {};
    }
    for i := 0 to |component|
      invariant Rated(txs, block, selected, out0, Elements(component[..i]), out)
    {
      var t := component[i];
      assert t in c;
      ElementsStep(component, i);
      var rate := CommonRate(fee, vsize, |component|, OwnRate(txs, selected, t));
      GetsItsRate(txs, block, selected, c, t, rate);
      RatedStep(txs, block, selected, out0, Elements(component[..i]), out, t, rate);
      out := out[t := rate];
    }
    assert component[..|component|] == component;
  }

  lemma NothingRated(txs: Mempool, block: set<Txid>, selected: map<Txid, real>, out0: map<Txid, real>)
    ensures Rated(txs, block, selected, out0, {}, out0)
  {
  }

  lemma GetsItsRate(txs: Mempool, block: set<Txid>, selected: map<Txid, real>, c: set<Txid>, t: Txid, rate: real)
    requires IsComponent(txs, block, c) && t in c && rate == RateIn(txs, selected, c, t)
    ensures HasItsRate(txs, block, selected, t, rate)
  {
  }

  lemma {:induction false} DistinctSize(s: seq<Txid>)
    requires Distinct(s)
    ensures |Elements(s)| == |s|
  {
    if s != [] {
      var n := |s| - 1;
      DistinctSize(s[..n]);
      assert Elements(s) == Elements(s[..n]) + {s[n]};
      assert s[n] !in Elements(s[..n]);
    }
  }

  /** Every transaction of the block gets a rate, and it is the rate of its connected component. */
  method PackageEffectiveRates(blockTxs: seq<Txid>, txs: Mempool, selected: map<Txid, real>) returns (out: map<Txid, real>)
    ensures out.Keys == Elements(blockTxs)
    ensures forall t <- out :: HasItsRate(txs, Elements(blockTxs), selected, t, out[t])
  {
    hide LinksAre, ClosedUnder, IsComponent, HasItsRate;
    ghost var block := Elements(blockTxs);
    var graph := BuildLinks(blockTxs, txs);
    out := map[];
    var seen: set<Txid> := {};
    NothingIsClosed(txs, block);
    for i := 0 to |blockTxs|
      invariant seen <= block && ClosedUnder(txs, block, seen) && out.Keys == seen
      invariant forall t <- blockTxs[..i] :: t in seen
      invariant forall t <- out :: HasItsRate(txs, block, selected, t, out[t])
    {
      var t := blockTxs[i];
      assert blockTxs[..i + 1] == blockTxs[..i] + [t];
      if t in seen {
        continue;
      }
      assert t in block;
      var component: seq<Txid>;
      component, seen := FindComponent(graph, txs, block, seen, t);
      out := RateComponent(component, txs, block, selected, out);
    }
    assert blockTxs[..|blockTxs|] == blockTxs;
  }

  lemma NothingIsClosed(txs: Mempool, block: set<Txid>)
    ensures ClosedUnder(txs, block, {})
  {
  }
}
