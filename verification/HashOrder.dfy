/** Iteration over hash containers, whose order is not specified, and sorting by score. */
module HashOrder {
  import opened Collections
  import opened TxGraph
  import opened TemplateSpec

  /** Some iteration order of a hash set: every member once. */
  method Enumerate<T(==, !new)>(s: set<T>) returns (q: seq<T>)
    ensures multiset(q) == multiset(s)
    ensures Elements(q) == s
  {
    q := [];
    var rest := s;
    while rest != {}
      invariant multiset(q) + multiset(rest) == multiset(s)
      decreases rest
    {
      var x :| x in rest;
      rest := rest - {x};
      q := q + [x];
    }
    MultisetOfSetIsDistinct(q, s);
  }

  // ---- sorting by score, best first --------------------------------------------------------

  predicate Scored(s: seq<Txid>, scores: map<Txid, real>) {
    forall t :: t in s ==> t in scores
  }

  ghost predicate BestFirst(s: seq<Txid>, scores: map<Txid, real>)
    requires Scored(s, scores)
  {
    forall i, j :: 0 <= i < j < |s| ==> Before(scores, s[i], s[j])
  }

  function InsertByScore(x: Txid, s: seq<Txid>, scores: map<Txid, real>): (r: seq<Txid>)
    requires x in scores && Scored(s, scores)
    ensures multiset(r) == multiset(s) + multiset{x}
  {
    if s == [] || Before(scores, x, s[0]) then [x] + s
    else
      assert s == [s[0]] + s[1..];
      [s[0]] + InsertByScore(x, s[1..], scores)
  }

  /** `sort_by` with the comparison: score descending, then id ascending. */
  function SortByScore(s: seq<Txid>, scores: map<Txid, real>): (r: seq<Txid>)
    requires Scored(s, scores)
    ensures multiset(r) == multiset(s)
  {
    if s == [] then []
    else
      assert s == [s[0]] + s[1..];
      assert forall y :: y in SortByScore(s[1..], scores) ==> y in multiset(s[1..]);
      InsertByScore(s[0], SortByScore(s[1..], scores), scores)
  }

  lemma {:induction false} InsertByScoreSorts(x: Txid, s: seq<Txid>, scores: map<Txid, real>)
    requires x in scores && Scored(s, scores) && BestFirst(s, scores)
    ensures Scored(InsertByScore(x, s, scores), scores) && BestFirst(InsertByScore(x, s, scores), scores)
  {
    var r := InsertByScore(x, s, scores);
    forall y | y in r ensures y in s || y == x {
      assert y in multiset(r);
    }
    if s != [] && !Before(scores, x, s[0]) {
      InsertByScoreSorts(x, s[1..], scores);
      var rest := InsertByScore(x, s[1..], scores);
      forall y | y in rest ensures Before(scores, s[0], y) {
        assert y in multiset(rest);
        assert y == x || y in s[1..];
      }
    }
  }

  lemma {:induction false} SortByScoreSorts(s: seq<Txid>, scores: map<Txid, real>)
    requires Scored(s, scores)
    ensures Scored(SortByScore(s, scores), scores) && BestFirst(SortByScore(s, scores), scores)
  {
    forall y | y in SortByScore(s, scores) ensures y in scores {
      assert y in multiset(s);
    }
    if s != [] {
      SortByScoreSorts(s[1..], scores);
      InsertByScoreSorts(s[0], SortByScore(s[1..], scores), scores);
    }
  }

  /** The head of a sorted sequence is the best of its members. */
  lemma HeadIsBest(s: seq<Txid>, scores: map<Txid, real>)
    requires Scored(s, scores) && BestFirst(s, scores) && s != []
    ensures forall u :: u in multiset(s) ==> u in scores
    ensures IsBest(scores, multiset(s), s[0])
  {
    forall u | u in multiset(s)
      ensures Before(scores, s[0], u)
    {
      var i :| 0 <= i < |s| && s[i] == u;
    }
  }

  lemma TailMultiset(s: seq<Txid>)
    requires s != []
    ensures multiset(s[1..]) == multiset(s) - multiset{s[0]}
  {
    assert s == [s[0]] + s[1..];
  }

  lemma {:induction false} BestFirstIsUnique(a: seq<Txid>, b: seq<Txid>, scores: map<Txid, real>)
    requires Scored(a, scores) && Scored(b, scores) && BestFirst(a, scores) && BestFirst(b, scores)
    requires multiset(a) == multiset(b)
    ensures a == b
  {
    assert |a| == |multiset(a)| == |multiset(b)| == |b|;
    if a != [] {
      HeadIsBest(a, scores);
      HeadIsBest(b, scores);
      BestIsUnique(scores, multiset(a), a[0], b[0]);
      TailMultiset(a);
      TailMultiset(b);
      BestFirstIsUnique(a[1..], b[1..], scores);
    }
  }
}
