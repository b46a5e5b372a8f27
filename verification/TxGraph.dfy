/** The in-pool parent relation of a mempool and its transitive closure. */
module TxGraph {

  /** A transaction id.  The 32 bytes are read as one number, so `<` is the byte order of the ids. */
  type Txid = nat

  /** For every transaction in the pool, the set of its parents. */
  type Graph = map<Txid, set<Txid>>

  ghost predicate Closed(g: Graph) {
    forall t, p :: t in g && p in g[t] ==> p in g
  }

  /** `a` is reached from `t` by at least one and at most `n` parent links. */
  ghost predicate Within(g: Graph, a: Txid, t: Txid, n: nat)
    decreases n
  {
    n > 0 && t in g && (a in g[t] || exists p :: p in g[t] && Within(g, a, p, n - 1))
  }

  ghost predicate IsAncestor(g: Graph, a: Txid, t: Txid) {
    exists n: nat :: Within(g, a, t, n)
  }

  ghost function Ancestors(g: Graph, t: Txid): set<Txid> {
    set a | a in g && IsAncestor(g, a, t)
  }

  ghost predicate Acyclic(g: Graph) {
    forall t :: t in g ==> !IsAncestor(g, t, t)
  }

  /** The first link of a path: an ancestor is a parent or an ancestor of a parent. */
  lemma AncestorUnfold(g: Graph, a: Txid, t: Txid)
    ensures IsAncestor(g, a, t) <==> t in g && (a in g[t] || exists p :: p in g[t] && IsAncestor(g, a, p))
  {
    if IsAncestor(g, a, t) {
      var n: nat :| Within(g, a, t, n);
      if a !in g[t] {
        var p :| p in g[t] && Within(g, a, p, n - 1);
        assert IsAncestor(g, a, p);
      }
    }
    if t in g {
      if a in g[t] {
        assert Within(g, a, t, 1);
      } else if p :| p in g[t] && IsAncestor(g, a, p) {
        var n: nat :| Within(g, a, p, n);
        assert Within(g, a, t, n + 1);
      }
    }
  }

  lemma {:induction false} AncestorTransitive(g: Graph, a: Txid, b: Txid, t: Txid, n: nat)
    requires IsAncestor(g, a, b) && Within(g, b, t, n)
    ensures IsAncestor(g, a, t)
    decreases n
  {
    AncestorUnfold(g, a, t);
    if b !in g[t] {
      var p :| p in g[t] && Within(g, b, p, n - 1);
      AncestorTransitive(g, a, b, p, n - 1);
    }
  }

  /** The last link of a path: some child of `a` is `t` or is itself an ancestor of `t`. */
  lemma {:induction false} AncestorLastLink(g: Graph, a: Txid, t: Txid, n: nat) returns (c: Txid)
    requires Closed(g) && Within(g, a, t, n)
    ensures c in g && a in g[c] && (c == t || IsAncestor(g, c, t))
    decreases n
  {
    if a in g[t] {
      c := t;
    } else {
      var p :| p in g[t] && Within(g, a, p, n - 1);
      c := AncestorLastLink(g, a, p, n - 1);
      AncestorUnfold(g, c, t);
    }
  }

  lemma AncestorSetUnfold(g: Graph, t: Txid)
    requires Closed(g) && t in g
    ensures Ancestors(g, t) == g[t] + (set p, a | p in g[t] && a in Ancestors(g, p) :: a)
  {
    forall a | a in g
      ensures a in Ancestors(g, t) <==> a in g[t] || exists p :: p in g[t] && a in Ancestors(g, p)
    {
      AncestorUnfold(g, a, t);
    }
  }

  lemma AncestorsNest(g: Graph, a: Txid, t: Txid)
    requires a in Ancestors(g, t)
    ensures Ancestors(g, a) <= Ancestors(g, t)
  {
    forall b | b in Ancestors(g, a)
      ensures b in Ancestors(g, t)
    {
      var n: nat :| Within(g, a, t, n);
      AncestorTransitive(g, b, a, t, n);
    }
  }

  /** The number of ancestors: in an acyclic pool it strictly decreases along parent links. */
  ghost function Depth(g: Graph, t: Txid): nat {
    |Ancestors(g, t)|
  }

  lemma SmallerSet<T>(a: set<T>, b: set<T>)
    requires a < b
    ensures |a| < |b|
  {
    assert b == a + (b - a);
  }

  lemma AncestorsAreShallower(g: Graph, a: Txid, t: Txid)
    requires Acyclic(g) && a in Ancestors(g, t)
    ensures Ancestors(g, a) < Ancestors(g, t)
    ensures Depth(g, a) < Depth(g, t)
  {
    AncestorsNest(g, a, t);
    assert a !in Ancestors(g, a);
    SmallerSet(Ancestors(g, a), Ancestors(g, t));
  }
}
