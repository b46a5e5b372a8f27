/** Small facts about sets, sequences and sorting that several models share. */
module Collections {

  datatype Option<+T> = None | Some(value: T)

  type Byte = x: int | 0 <= x < 256
  type Bytes = seq<Byte>

  function Max(a: int, b: int): int {
    if a > b then a else b
  }

  function MinReal(a: real, b: real): real {
    if a < b then a else b
  }

  /** Subtraction that stops at zero, as on the source's unsigned integers. */
  function Monus(a: nat, b: nat): nat {
    if a >= b then a - b else 0
  }

  // ---- sums ----------------------------------------------------------------

  ghost function SumOver<K(!new)>(f: map<K, nat>, s: set<K>): nat
    requires s <= f.Keys
  {
    if s == {} then 0 else var x :| x in s; f[x] + SumOver(f, s - {x})
  }

  lemma {:induction false} SumRemove<K(!new)>(f: map<K, nat>, s: set<K>, x: K)
    requires s <= f.Keys && x in s
    ensures SumOver(f, s) == f[x] + SumOver(f, s - {x})
  {
    var y :| y in s && SumOver(f, s) == f[y] + SumOver(f, s - {y});
    if y != x {
      SumRemove(f, s - {y}, x);
      SumRemove(f, s - {x}, y);
      assert s - {y} - {x} == s - {x} - {y};
    }
  }

  function SumSeq<K>(f: map<K, nat>, s: seq<K>): nat
    requires forall x :: x in s ==> x in f
  {
    if s == [] then 0 else SumSeq(f, s[..|s| - 1]) + f[s[|s| - 1]]
  }

  ghost predicate Distinct<T(!new)>(s: seq<T>) {
    forall i, j :: 0 <= i < j < |s| ==> s[i] != s[j]
  }

  ghost function Elements<T>(s: seq<T>): set<T> {
    set x | x in s
  }

  lemma DistinctAppend<T(!new)>(a: seq<T>, b: seq<T>)
    requires Distinct(a) && Distinct(b) && Elements(a) !! Elements(b)
    ensures Distinct(a + b)
  {
    forall i, j | 0 <= i < j < |a + b|
      ensures (a + b)[i] != (a + b)[j]
    {
      if i < |a| <= j {
        assert a[i] in Elements(a) && b[j - |a|] in Elements(b);
      }
    }
  }

  lemma {:induction false} SumSeqIsSumOver<K(!new)>(f: map<K, nat>, s: seq<K>)
    requires Distinct(s) && Elements(s) <= f.Keys
    ensures SumSeq(f, s) == SumOver(f, Elements(s))
  {
    if s != [] {
      var n := |s| - 1;
      SumSeqIsSumOver(f, s[..n]);
      assert Elements(s) - {s[n]} == Elements(s[..n]);
      SumRemove(f, Elements(s), s[n]);
    }
  }

  // ---- a sequence without repetitions, from a multiset ----------------------

  lemma {:induction false} MultisetOfSetIsDistinct<T(!new)>(s: seq<T>, e: set<T>)
    requires multiset(s) == multiset(e)
    ensures Distinct(s) && Elements(s) == e
  {
    forall x ensures x in Elements(s) <==> x in e {
      assert x in s <==> x in multiset(s);
    }
    forall i, j | 0 <= i < j < |s|
      ensures s[i] != s[j]
    {
      assert s == s[..i] + [s[i]] + s[i + 1..j] + [s[j]] + s[j + 1..];
      assert multiset(s)[s[i]] <= 1;
    }
  }

  // ---- stable sort by a numeric key -----------------------------------------

  function InsertByKey<K>(x: K, s: seq<K>, key: map<K, nat>): (r: seq<K>)
    requires x in key && forall y :: y in s ==> y in key
    ensures multiset(r) == multiset(s) + multiset{x}
  {
    if s == [] || key[x] <= key[s[0]] then [x] + s
    else
      assert s == [s[0]] + s[1..];
      [s[0]] + InsertByKey(x, s[1..], key)
  }

  /** `Vec::sort_by_key`: equal keys keep the order they come in. */
  function SortByKey<K>(s: seq<K>, key: map<K, nat>): (r: seq<K>)
    requires forall y :: y in s ==> y in key
    ensures multiset(r) == multiset(s)
  {
    if s == [] then []
    else
      assert s == [s[0]] + s[1..];
      assert forall y :: y in SortByKey(s[1..], key) ==> y in multiset(s[1..]);
      InsertByKey(s[0], SortByKey(s[1..], key), key)
  }

  ghost predicate OrderedByKey<K(!new)>(s: seq<K>, key: map<K, nat>)
    requires forall y :: y in s ==> y in key
  {
    forall i, j :: 0 <= i < j < |s| ==> key[s[i]] <= key[s[j]]
  }

  lemma {:induction false} InsertByKeyOrders<K(!new)>(x: K, s: seq<K>, key: map<K, nat>)
    requires x in key && forall y :: y in s ==> y in key
    requires OrderedByKey(s, key)
    ensures forall y :: y in InsertByKey(x, s, key) ==> y in key
    ensures OrderedByKey(InsertByKey(x, s, key), key)
  {
    var r := InsertByKey(x, s, key);
    forall y | y in r ensures y in s || y == x {
      assert y in multiset(r);
    }
    if s != [] && key[x] > key[s[0]] {
      InsertByKeyOrders(x, s[1..], key);
      var rest := InsertByKey(x, s[1..], key);
      forall y | y in rest ensures key[s[0]] <= key[y] {
        assert y in multiset(rest);
        assert y == x || y in s[1..];
      }
      PrependOrders(s[0], rest, key);
    } else if s != [] {
      PrependOrders(x, s, key);
    }
  }

  lemma PrependOrders<K(!new)>(x: K, s: seq<K>, key: map<K, nat>)
    requires x in key && (forall y :: y in s ==> y in key) && OrderedByKey(s, key)
    requires s != [] ==> key[x] <= key[s[0]]
    ensures forall y :: y in [x] + s ==> y in key
    ensures OrderedByKey([x] + s, key)
  {
  }

  lemma {:induction false} SortByKeyOrders<K(!new)>(s: seq<K>, key: map<K, nat>)
    requires forall y :: y in s ==> y in key
    ensures forall y :: y in SortByKey(s, key) ==> y in key
    ensures OrderedByKey(SortByKey(s, key), key)
  {
    forall y | y in SortByKey(s, key) ensures y in key {
      assert y in multiset(s);
    }
    if s != [] {
      SortByKeyOrders(s[1..], key);
      InsertByKeyOrders(s[0], SortByKey(s[1..], key), key);
    }
  }

  // ---- pages ---------------------------------------------------------------

  function Min(a: nat, b: nat): nat {
    if a <= b then a else b
  }

  function Page<T>(s: seq<T>, offset: nat, limit: nat): seq<T> {
    s[Min(offset, |s|)..Min(offset + limit, |s|)]
  }

  /** `full` would be out without paging; `out` is its page and `skip` what is still to be skipped. */
  ghost predicate Paged<T>(full: seq<T>, offset: nat, limit: nat, skip: nat, out: seq<T>) {
    out == Page(full, offset, limit) && skip == Monus(offset, |full|)
  }

  lemma PagedStep<T>(full: seq<T>, x: T, offset: nat, limit: nat, skip: nat, out: seq<T>)
    requires Paged(full, offset, limit, skip, out) && |out| < limit
    ensures skip > 0 ==> Paged(full + [x], offset, limit, skip - 1, out)
    ensures skip == 0 ==> Paged(full + [x], offset, limit, 0, out + [x])
  {
  }

  lemma PageIsFull<T>(full: seq<T>, more: seq<T>, offset: nat, limit: nat, skip: nat, out: seq<T>)
    requires Paged(full, offset, limit, skip, out) && |out| >= limit
    ensures out == Page(full + more, offset, limit)
  {
  }

  lemma PageStarts<T>(offset: nat, limit: nat)
    ensures Paged<T>([], offset, limit, offset, [])
  {
  }

  lemma EmptyPage<T>(s: seq<T>, offset: nat)
    ensures Page(s, offset, 0) == []
  {
  }

  /** Consecutive pages join up without a gap or a repetition. */
  lemma PagesTile<T>(s: seq<T>, offset: nat, m: nat, n: nat)
    ensures Page(s, offset, m) + Page(s, offset + m, n) == Page(s, offset, m + n)
  {
    assert Min(offset, |s|) <= Min(offset + m, |s|) <= Min(offset + m + n, |s|);
  }
}
