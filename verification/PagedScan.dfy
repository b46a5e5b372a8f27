/** Reading a range of a namespace, whole or page by page and in either direction, straight from the sorted rows
    of the key-value store. */
module PagedScan {
  import opened Collections
  import SkipScan

  datatype Row = Row(key: Bytes, value: Bytes)

  ghost predicate SortedRows(rows: seq<Row>) {
    forall i, j :: 0 <= i < j < |rows| ==> SkipScan.Less(rows[i].key, rows[j].key)
  }

  predicate Below(key: Bytes, end: Option<Bytes>) {
    end.Some? ==> !SkipScan.Leq(end.value, key)
  }

  /** In the range and in the namespace. */
  predicate Wanted(row: Row, prefix: Bytes, start: Bytes, end: Option<Bytes>) {
    SkipScan.Leq(start, row.key) && Below(row.key, end) && SkipScan.StartsWith(row.key, prefix)
  }

  function Stripped(row: Row, prefix: Bytes): Row
    requires SkipScan.StartsWith(row.key, prefix)
  {
    Row(row.key[|prefix|..], row.value)
  }

  /** The simple form: every row, kept if it is wanted. */
  function Filter(rows: seq<Row>, prefix: Bytes, start: Bytes, end: Option<Bytes>): seq<Row> {
    if rows == [] then []
    else
      var row := rows[|rows| - 1];
      Filter(rows[..|rows| - 1], prefix, start, end) + if Wanted(row, prefix, start, end) then [Stripped(row, prefix)] else []
  }

  function Reversed(rows: seq<Row>): seq<Row> {
    if rows == [] then [] else Reversed(rows[1..]) + [rows[0]]
  }

  lemma {:induction false} FilterConcat(a: seq<Row>, b: seq<Row>, prefix: Bytes, start: Bytes, end: Option<Bytes>)
    ensures Filter(a + b, prefix, start, end) == Filter(a, prefix, start, end) + Filter(b, prefix, start, end)
    decreases |b|
  {
    if b == [] {
      assert a + b == a;
    } else {
      FilterConcat(a, b[..|b| - 1], prefix, start, end);
      assert (a + b)[..|a + b| - 1] == a + b[..|b| - 1];
    }
  }

  /** A row comes out exactly if it is stored under the prefix and its key, in the range. */
  lemma {:induction false} FilterExactly(rows: seq<Row>, prefix: Bytes, start: Bytes, end: Option<Bytes>, row: Row)
    ensures row in Filter(rows, prefix, start, end) <==>
            var key := prefix + row.key;
            Row(key, row.value) in rows && !SkipScan.Less(key, start) && (end.Some? ==> SkipScan.Less(key, end.value))
  {
    if rows != [] {
      var n := |rows| - 1;
      assert rows == rows[..n] + [rows[n]];
      FilterExactly(rows[..n], prefix, start, end, row);
      if rows[n].key == prefix + row.key {
        assert rows[n].key[..|prefix|] == prefix && rows[n].key[|prefix|..] == row.key;
      }
      if SkipScan.StartsWith(rows[n].key, prefix) && Stripped(rows[n], prefix) == row {
        assert rows[n].key == prefix + row.key;
      }
    }
  }

  /** And the rows come out in the order of their keys. */
  lemma {:induction false} FilterIsSorted(rows: seq<Row>, prefix: Bytes, start: Bytes, end: Option<Bytes>)
    requires SortedRows(rows)
    ensures SortedRows(Filter(rows, prefix, start, end))
  {
    if rows != [] {
      var n := |rows| - 1;
      var rest, out := Filter(rows[..n], prefix, start, end), Filter(rows, prefix, start, end);
      FilterIsSorted(rows[..n], prefix, start, end);
      if Wanted(rows[n], prefix, start, end) {
        var last := Stripped(rows[n], prefix);
        forall row <- rest ensures SkipScan.Less(row.key, last.key) {
          FilterExactly(rows[..n], prefix, start, end, row);
          assert rows[n].key == prefix + last.key;
          SkipScan.LeqCancel(prefix, last.key, row.key);
        }
        forall i, j | 0 <= i < j < |out| ensures SkipScan.Less(out[i].key, out[j].key) {
          assert j == |rest| ==> out[i] in rest;
        }
      }
    }
  }

  lemma {:induction false} FilterNone(rows: seq<Row>, prefix: Bytes, start: Bytes, end: Option<Bytes>)
    requires forall row <- rows :: !Wanted(row, prefix, start, end)
    ensures Filter(rows, prefix, start, end) == []
  {
    if rows != [] {
      assert rows[|rows| - 1] in rows;
      FilterNone(rows[..|rows| - 1], prefix, start, end);
    }
  }

  lemma FilterOne(row: Row, prefix: Bytes, start: Bytes, end: Option<Bytes>)
    ensures Filter([row], prefix, start, end) == if Wanted(row, prefix, start, end) then [Stripped(row, prefix)] else []
  {
    assert [row][..0] == [];
  }

  lemma {:induction false} ReversedConcat(a: seq<Row>, b: seq<Row>)
    ensures Reversed(a + b) == Reversed(b) + Reversed(a)
  {
    if a == [] {
      assert a + b == b;
    } else {
      assert (a + b)[1..] == a[1..] + b;
      ReversedConcat(a[1..], b);
    }
  }

  /** From a row at or past the end on, nothing is wanted. */
  lemma NoneFrom(rows: seq<Row>, i: nat, prefix: Bytes, start: Bytes, end: Bytes)
    requires SortedRows(rows) && i <= |rows| && (i < |rows| ==> SkipScan.Leq(end, rows[i].key))
    ensures Filter(rows[i..], prefix, start, Some(end)) == []
  {
    forall row <- rows[i..] ensures !Wanted(row, prefix, start, Some(end)) {
      var j :| i <= j < |rows| && rows[j] == row;
      SkipScan.LeqTotal(rows[i].key, rows[j].key);
      SkipScan.LeqTransitive(end, rows[i].key, rows[j].key);
    }
    FilterNone(rows[i..], prefix, start, Some(end));
  }

  /** Before a row below the start, and at it, nothing is wanted. */
  lemma NoneUpTo(rows: seq<Row>, i: nat, prefix: Bytes, start: Bytes, end: Option<Bytes>)
    requires SortedRows(rows) && i <= |rows| && (i > 0 ==> !SkipScan.Leq(start, rows[i - 1].key))
    ensures Filter(rows[..i], prefix, start, end) == []
  {
    forall row <- rows[..i] ensures !Wanted(row, prefix, start, end) {
      var j :| 0 <= j < i && rows[j] == row;
      SkipScan.LeqTotal(rows[j].key, rows[i - 1].key);
      if SkipScan.Leq(start, row.key) {
        SkipScan.LeqTransitive(start, rows[j].key, rows[i - 1].key);
      }
    }
    FilterNone(rows[..i], prefix, start, end);
  }

  /** Where a forward iterator starts: the first row at or after `start`. */
  method SeekForward(rows: seq<Row>, start: Bytes) returns (i: nat)
    requires SortedRows(rows)
    ensures i <= |rows| && (i > 0 ==> !SkipScan.Leq(start, rows[i - 1].key)) && (i < |rows| ==> SkipScan.Leq(start, rows[i].key))
  {
    i := 0;
    while i < |rows| && !SkipScan.Leq(start, rows[i].key)
      invariant i <= |rows| && (i > 0 ==> !SkipScan.Leq(start, rows[i - 1].key))
    {
      i := i + 1;
    }
  }

  /** Where a backward iterator starts: behind the last row at or before `end`. */
  method SeekBackward(rows: seq<Row>, end: Option<Bytes>) returns (i: nat)
    requires SortedRows(rows)
    ensures i <= |rows| && (i < |rows| ==> end.Some? && SkipScan.Leq(end.value, rows[i].key))
    ensures i > 0 && end.Some? ==> SkipScan.Leq(rows[i - 1].key, end.value)
  {
    i := |rows|;
    while i > 0 && end.Some? && !SkipScan.Leq(rows[i - 1].key, end.value)
      invariant i <= |rows| && (i < |rows| ==> end.Some? && SkipScan.Leq(end.value, rows[i].key))
    {
      SkipScan.LeqTotal(rows[i - 1].key, end.value);
      i := i - 1;
    }
  }

  lemma AtOrAfterStart(rows: seq<Row>, from: nat, i: nat, start: Bytes)
    requires SortedRows(rows) && from <= i < |rows| && SkipScan.Leq(start, rows[from].key)
    ensures SkipScan.Leq(start, rows[i].key)
  {
    SkipScan.LeqTotal(rows[from].key, rows[i].key);
    SkipScan.LeqTransitive(start, rows[from].key, rows[i].key);
  }

  /** One more row. */
  lemma Split(rows: seq<Row>, i: nat, prefix: Bytes, start: Bytes, end: Option<Bytes>)
    requires i < |rows|
    ensures Filter(rows[..i + 1], prefix, start, end)
            == Filter(rows[..i], prefix, start, end) + if Wanted(rows[i], prefix, start, end) then [Stripped(rows[i], prefix)] else []
    ensures Filter(rows[i..], prefix, start, end)
            == (if Wanted(rows[i], prefix, start, end) then [Stripped(rows[i], prefix)] else []) + Filter(rows[i + 1..], prefix, start, end)
  {
    hide Filter;
    assert rows[..i + 1] == rows[..i] + [rows[i]];
    assert rows[i..] == [rows[i]] + rows[i + 1..];
    FilterConcat(rows[..i], [rows[i]], prefix, start, end);
    FilterConcat([rows[i]], rows[i + 1..], prefix, start, end);
    FilterOne(rows[i], prefix, start, end);
  }

  lemma Joined(rows: seq<Row>, i: nat, prefix: Bytes, start: Bytes, end: Option<Bytes>)
    requires i <= |rows|
    ensures Filter(rows, prefix, start, end) == Filter(rows[..i], prefix, start, end) + Filter(rows[i..], prefix, start, end)
  {
    assert rows == rows[..i] + rows[i..];
    FilterConcat(rows[..i], rows[i..], prefix, start, end);
  }

  method ScanRange(rows: seq<Row>, prefix: Bytes, start: Bytes, end: Option<Bytes>) returns (out: seq<Row>)
    requires SortedRows(rows)
    ensures out == Filter(rows, prefix, start, end)
  {
    hide Filter, SortedRows;
    out := [];
    var from := SeekForward(rows, start);
    NoneUpTo(rows, from, prefix, start, end);
    for i := from to |rows|
      invariant out == Filter(rows[..i], prefix, start, end)
    {
      AtOrAfterStart(rows, from, i, start);
      Split(rows, i, prefix, start, end);
      if end.Some? && SkipScan.Leq(end.value, rows[i].key) {
        NoneFrom(rows, i, prefix, start, end.value);
        Joined(rows, i, prefix, start, end);
        return;
      }
      if SkipScan.StartsWith(rows[i].key, prefix) {
        out := out + [Stripped(rows[i], prefix)];
      }
    }
    assert rows[..|rows|] == rows;
  }

  /** What a page is cut from: the filtered rows, from the front or from the back. */
  function Whole(rows: seq<Row>, prefix: Bytes, start: Bytes, end: Option<Bytes>, reverse: bool): seq<Row> {
    if reverse then Reversed(Filter(rows, prefix, start, end)) else Filter(rows, prefix, start, end)
  }

  method ScanPage(rows: seq<Row>, prefix: Bytes, start: Bytes, end: Option<Bytes>, offset: nat, limit: nat, reverse: bool) returns (out: seq<Row>)
    requires SortedRows(rows)
    ensures out == Page(Whole(rows, prefix, start, end, reverse), offset, limit)
  {
    EmptyPage(Whole(rows, prefix, start, end, reverse), offset);
    if limit == 0 {
      return [];
    }
    if reverse {
      out := PageBackward(rows, prefix, start, end, offset, limit);
    } else {
      out := PageForward(rows, prefix, start, end, offset, limit);
    }
  }

  method PageForward(rows: seq<Row>, prefix: Bytes, start: Bytes, end: Option<Bytes>, offset: nat, limit: nat) returns (out: seq<Row>)
    requires SortedRows(rows) && limit > 0
    ensures out == Page(Filter(rows, prefix, start, end), offset, limit)
  {
    hide Filter, SortedRows, Page, Paged;
    out := [];
    var skipped := 0;
    ghost var full: seq<Row> := [];
    var from := SeekForward(rows, start);
    NoneUpTo(rows, from, prefix, start, end);
    PageStarts<Row>(offset, limit);
    for i := from to |rows|
      invariant full == Filter(rows[..i], prefix, start, end)
      invariant skipped <= offset && Paged(full, offset, limit, offset - skipped, out) && |out| < limit
    {
      AtOrAfterStart(rows, from, i, start);
      Split(rows, i, prefix, start, end);
      Joined(rows, i, prefix, start, end);
      Joined(rows, i + 1, prefix, start, end);
      if end.Some? && SkipScan.Leq(end.value, rows[i].key) {
        NoneFrom(rows, i, prefix, start, end.value);
        assert full + [] == full;
        PagedIs(full, offset, limit, offset - skipped, out);
        return;
      }
      if !SkipScan.StartsWith(rows[i].key, prefix) {
        continue;
      }
      var row := Stripped(rows[i], prefix);
      PagedStep(full, row, offset, limit, offset - skipped, out);
      full := full + [row];
      if skipped < offset {
        skipped := skipped + 1;
        continue;
      }
      out := out + [row];
      if |out| >= limit {
        PageIsFull(full, Filter(rows[i + 1..], prefix, start, end), offset, limit, 0, out);
        return;
      }
    }
    assert rows[..|rows|] == rows;
    PagedIs(full, offset, limit, offset - skipped, out);
  }

  lemma PagedIs(full: seq<Row>, offset: nat, limit: nat, skip: nat, out: seq<Row>)
    requires Paged(full, offset, limit, skip, out)
    ensures out == Page(full, offset, limit)
  {
  }

  lemma ReversedSplit(rows: seq<Row>, i: nat, prefix: Bytes, start: Bytes, end: Option<Bytes>)
    requires i < |rows|
    ensures Reversed(Filter(rows[i..], prefix, start, end))
            == Reversed(Filter(rows[i + 1..], prefix, start, end)) + if Wanted(rows[i], prefix, start, end) then [Stripped(rows[i], prefix)] else []
    ensures Reversed(Filter(rows, prefix, start, end))
            == Reversed(Filter(rows[i..], prefix, start, end)) + Reversed(Filter(rows[..i], prefix, start, end))
  {
    hide Filter;
    Split(rows, i, prefix, start, end);
    Joined(rows, i, prefix, start, end);
    ReversedConcat(Filter(rows[..i], prefix, start, end), Filter(rows[i..], prefix, start, end));
    if Wanted(rows[i], prefix, start, end) {
      var row := Stripped(rows[i], prefix);
      ReversedConcat([row], Filter(rows[i + 1..], prefix, start, end));
      assert Reversed([row]) == [row];
    } else {
      assert [] + Filter(rows[i + 1..], prefix, start, end) == Filter(rows[i + 1..], prefix, start, end);
    }
  }

  method PageBackward(rows: seq<Row>, prefix: Bytes, start: Bytes, end: Option<Bytes>, offset: nat, limit: nat) returns (out: seq<Row>)
    requires SortedRows(rows) && limit > 0
    ensures out == Page(Reversed(Filter(rows, prefix, start, end)), offset, limit)
  {
    hide Filter, SortedRows, Page, Paged, Reversed;
    out := [];
    var skipped := 0;
    ghost var full: seq<Row> := [];
    var i: nat := SeekBackward(rows, end);
    NoneBehind(rows, i, prefix, start, end);
    PageStarts<Row>(offset, limit);
    while i > 0
      invariant 0 <= i <= |rows|
      invariant full == Reversed(Filter(rows[i..], prefix, start, end))
      invariant skipped <= offset && Paged(full, offset, limit, offset - skipped, out) && |out| < limit
    {
      i := i - 1;
      ReversedSplit(rows, i, prefix, start, end);
      if !SkipScan.Leq(start, rows[i].key) {
        NoneUpTo(rows, i + 1, prefix, start, end);
        Backwards(rows, i + 1, prefix, start, end, full);
        PagedIs(full, offset, limit, offset - skipped, out);
        return;
      }
      if !Below(rows[i].key, end) || !SkipScan.StartsWith(rows[i].key, prefix) {
        continue;
      }
      var row := Stripped(rows[i], prefix);
      PagedStep(full, row, offset, limit, offset - skipped, out);
      full := full + [row];
      if skipped < offset {
        skipped := skipped + 1;
        continue;
      }
      out := out + [row];
      if |out| >= limit {
        PageIsFull(full, Reversed(Filter(rows[..i], prefix, start, end)), offset, limit, 0, out);
        return;
      }
    }
    assert rows[0..] == rows;
    PagedIs(full, offset, limit, offset - skipped, out);
  }

  lemma NoneBehind(rows: seq<Row>, i: nat, prefix: Bytes, start: Bytes, end: Option<Bytes>)
    requires SortedRows(rows) && i <= |rows| && (i < |rows| ==> end.Some? && SkipScan.Leq(end.value, rows[i].key))
    ensures Reversed(Filter(rows[i..], prefix, start, end)) == []
  {
    if i < |rows| {
      NoneFrom(rows, i, prefix, start, end.value);
    }
  }

  lemma Backwards(rows: seq<Row>, i: nat, prefix: Bytes, start: Bytes, end: Option<Bytes>, full: seq<Row>)
    requires i <= |rows| && full == Reversed(Filter(rows[i..], prefix, start, end)) && Filter(rows[..i], prefix, start, end) == []
    ensures full == Reversed(Filter(rows, prefix, start, end))
  {
    hide Filter;
    Joined(rows, i, prefix, start, end);
    assert [] + Filter(rows[i..], prefix, start, end) == Filter(rows[i..], prefix, start, end);
  }

  /** A client that asks for one page after the other until one comes back short has the whole range, each row once. */
  method PagesCoverRange(rows: seq<Row>, prefix: Bytes, start: Bytes, end: Option<Bytes>, limit: nat, reverse: bool) returns (all: seq<Row>)
    requires SortedRows(rows) && limit > 0
    ensures all == if reverse then Reversed(Filter(rows, prefix, start, end)) else Filter(rows, prefix, start, end)
  {
    hide Filter, Reversed, Whole, SortedRows;
    ghost var whole := Whole(rows, prefix, start, end, reverse);
    WholeIs(rows, prefix, start, end, reverse);
    all := [];
    var more := true;
    while more
      invariant all == Page(whole, 0, |all|) && (!more ==> all == whole)
      decreases more, |whole| - |all|
    {
      var page := ScanPage(rows, prefix, start, end, |all|, limit, reverse);
      PagesTile(whole, 0, |all|, limit);
      all := all + page;
      more := |page| == limit;
    }
  }

  lemma WholeIs(rows: seq<Row>, prefix: Bytes, start: Bytes, end: Option<Bytes>, reverse: bool)
    ensures Whole(rows, prefix, start, end, reverse) == if reverse then Reversed(Filter(rows, prefix, start, end)) else Filter(rows, prefix, start, end)
  {
  }
}
