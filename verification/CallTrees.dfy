/** What the storage walk means: a balanced trace is the traversal of a tree of calls, and the walk books each
    call's storage on that call's own callee. */
module CallTrees {
  import opened Collections
  import opened OrphanReturns
  import opened TraceStorage

  /** A sequence of sibling calls; a call without an owner entered a context that names no callee. */
  datatype Calls =
    | Done
    | Note(rest: Calls)
    | Call(myself: Option<AlkaneId>, body: Calls, failed: bool, response: Option<Response>, rest: Calls)

  function Flatten(c: Calls): seq<TraceEvent> {
    match c
    case Done => []
    case Note(rest) => [OtherEvent] + Flatten(rest)
    case Call(myself, body, failed, response, rest) =>
      [EnterContext(myself)] + Flatten(body) + [ExitContext(failed, response)] + Flatten(rest)
  }

  /** What each call reports, booked on the call itself, in the order the calls end. */
  function Genuine(c: Calls): seq<Report> {
    match c
    case Done => []
    case Note(rest) => Genuine(rest)
    case Call(myself, body, _, response, rest) =>
      Genuine(body) + [Report(Owner(EnterContext(myself)), response)] + Genuine(rest)
  }

  /** Every call names a callee. */
  predicate AllOwned(c: Calls) {
    match c
    case Done => true
    case Note(rest) => AllOwned(rest)
    case Call(myself, body, _, _, rest) => Owner(EnterContext(myself)).Some? && AllOwned(body) && AllOwned(rest)
  }

  /** No call without a callee is made, directly or not, by a call that has one. */
  predicate WellOwned(c: Calls) {
    match c
    case Done => true
    case Note(rest) => WellOwned(rest)
    case Call(myself, body, _, _, rest) =>
      && (if Owner(EnterContext(myself)).Some? then AllOwned(body) else WellOwned(body))
      && WellOwned(rest)
  }

  // ---- every balanced trace is the traversal of a tree ---------------------------------------------

  /** From depth `d`, the events never return from an empty stack and close everything. */
  predicate Closes(events: seq<TraceEvent>, d: nat) {
    if events == [] then d == 0
    else match events[0]
      case EnterContext(_) => Closes(events[1..], d + 1)
      case ExitContext(_, _) => d > 0 && Closes(events[1..], d - 1)
      case OtherEvent => Closes(events[1..], d)
  }

  lemma NothingCloses()
    ensures Closes([], 0)
  {
  }

  lemma ClosesStep(events: seq<TraceEvent>, d: nat)
    requires events != []
    ensures Closes(events, d) <==> d + Delta(EventView(events[0])) >= 0 && Closes(events[1..], d + Delta(EventView(events[0])))
  {
  }

  lemma {:induction false} BalancedCloses(events: seq<TraceEvent>, removed: set<nat>, k: nat)
    requires k <= |events| && Balanced(EventViews(events), removed)
    ensures Depth(EventViews(events), removed, k) >= 0
    ensures Closes(Survivors(events, removed, k), Depth(EventViews(events), removed, k))
    decreases |events| - k
  {
    hide Survivors, Depth, Closes;
    SurvivorsStep(events, removed, k);
    NothingCloses();
    if k < |events| {
      BalancedCloses(events, removed, k + 1);
      if k !in removed {
        ClosesStep(Survivors(events, removed, k), Depth(EventViews(events), removed, k));
      }
    }
  }

  /** One event of the trace, and of what survives of it. */
  lemma SurvivorsStep(events: seq<TraceEvent>, removed: set<nat>, k: nat)
    requires k <= |events|
    ensures k == |events| ==> Survivors(events, removed, k) == []
    ensures k < |events| && k in removed ==>
              && Survivors(events, removed, k) == Survivors(events, removed, k + 1)
              && Depth(EventViews(events), removed, k + 1) == Depth(EventViews(events), removed, k)
    ensures k < |events| && k !in removed ==>
              && Survivors(events, removed, k) != [] && Survivors(events, removed, k)[0] == events[k]
              && Survivors(events, removed, k)[1..] == Survivors(events, removed, k + 1)
              && Depth(EventViews(events), removed, k + 1) == Depth(EventViews(events), removed, k) + Delta(EventView(events[k]))
  {
  }

  /** A traversal that starts inside some open calls: finish the innermost, exit it, and so on. */
  datatype Pending = Last(calls: Calls) | Inside(calls: Calls, failed: bool, response: Option<Response>, outer: Pending)

  function Traversal(p: Pending): seq<TraceEvent> {
    match p
    case Last(calls) => Flatten(calls)
    case Inside(calls, failed, response, outer) => Flatten(calls) + [ExitContext(failed, response)] + Traversal(outer)
  }

  function OpenCalls(p: Pending): nat {
    match p case Last(_) => 0 case Inside(_, _, _, outer) => 1 + OpenCalls(outer)
  }

  lemma {:induction false} Parse(events: seq<TraceEvent>, d: nat) returns (p: Pending)
    requires Closes(events, d)
    ensures Traversal(p) == events && OpenCalls(p) == d
  {
    if events == [] {
      p := Last(Done);
    } else {
      match events[0]
      case EnterContext(myself) =>
        var q := Parse(events[1..], d + 1);
        p := Enclose(myself, q);
      case ExitContext(failed, response) =>
        var q := Parse(events[1..], d - 1);
        p := Inside(Done, failed, response, q);
      case OtherEvent =>
        var q := Parse(events[1..], d);
        p := if q.Last? then Last(Note(q.calls)) else q.(calls := Note(q.calls));
    }
  }

  /** Prefixing a traversal with an entry makes its innermost open part a call. */
  lemma Enclose(myself: Option<AlkaneId>, q: Pending) returns (p: Pending)
    requires q.Inside?
    ensures Traversal(p) == [EnterContext(myself)] + Traversal(q) && OpenCalls(p) == OpenCalls(q) - 1
  {
    var call := Call(myself, q.calls, q.failed, q.response, q.outer.calls);
    p := if q.outer.Last? then Last(call) else q.outer.(calls := call);
  }

  lemma BalancedIsTree(events: seq<TraceEvent>, removed: set<nat>) returns (c: Calls)
    requires Balanced(EventViews(events), removed)
    ensures Flatten(c) == Survivors(events, removed, 0)
  {
    BalancedCloses(events, removed, 0);
    var p := Parse(Survivors(events, removed, 0), 0);
    c := p.calls;
  }

  // ---- the walk books each call on itself ----------------------------------------------------------------

  lemma {:induction false} ReportsConcat(a: seq<TraceEvent>, b: seq<TraceEvent>, stack: seq<SchemaAlkaneId>)
    ensures Reports(a + b, stack) == Reports(a, stack) + Reports(b, StackAfter(a, stack))
    ensures StackAfter(a + b, stack) == StackAfter(b, StackAfter(a, stack))
    decreases |a|
  {
    if a == [] {
      assert a + b == b;
    } else {
      assert (a + b)[0] == a[0] && (a + b)[1..] == a[1..] + b;
      match a[0]
      case EnterContext(_) => ReportsConcat(a[1..], b, Push(stack, Owner(a[0])));
      case ExitContext(_, _) => ReportsConcat(a[1..], b, Pop(stack));
      case OtherEvent => ReportsConcat(a[1..], b, stack);
    }
  }

  /** The traversal of one call and its siblings, cut into the pieces of its definition. */
  lemma ReportsOfCall(c: Calls, stack: seq<SchemaAlkaneId>)
    requires c.Call?
    ensures var inner := Push(stack, Owner(EnterContext(c.myself)));
            var ended := StackAfter(Flatten(c.body), inner);
            && Reports(Flatten(c), stack)
               == Reports(Flatten(c.body), inner) + [Report(Top(ended), c.response)] + Reports(Flatten(c.rest), Pop(ended))
            && StackAfter(Flatten(c), stack) == StackAfter(Flatten(c.rest), Pop(ended))
  {
    var enter, exit := EnterContext(c.myself), ExitContext(c.failed, c.response);
    var inner := Push(stack, Owner(enter));
    var ended := StackAfter(Flatten(c.body), inner);
    var tail := [exit] + Flatten(c.rest);
    assert Flatten(c) == [enter] + (Flatten(c.body) + tail);
    assert Flatten(c)[1..] == Flatten(c.body) + tail;
    ReportsConcat(Flatten(c.body), tail, inner);
    assert tail[0] == exit && tail[1..] == Flatten(c.rest);
  }

  lemma {:induction false} SameLength(c: Calls, stack: seq<SchemaAlkaneId>)
    ensures |Reports(Flatten(c), stack)| == |Genuine(c)|
  {
    match c
    case Done =>
    case Note(rest) =>
      assert Flatten(c)[1..] == Flatten(rest);
      SameLength(rest, stack);
    case Call(myself, body, _, _, rest) =>
      ReportsOfCall(c, stack);
      var inner := Push(stack, Owner(EnterContext(myself)));
      SameLength(body, inner);
      SameLength(rest, Pop(StackAfter(Flatten(body), inner)));
  }

  predicate Right(c: Calls, stack: seq<SchemaAlkaneId>) {
    if stack == [] then WellOwned(c) else AllOwned(c)
  }

  /** A walk that starts on `stack` books every call on itself exactly if no call without a callee can pop
      somebody else's entry; it then leaves the stack as it found it. */
  lemma {:induction false} WalkIsGenuine(c: Calls, stack: seq<SchemaAlkaneId>)
    ensures Reports(Flatten(c), stack) == Genuine(c) <==> Right(c, stack)
    ensures Right(c, stack) ==> StackAfter(Flatten(c), stack) == stack
    decreases c, 1
  {
    match c
    case Done =>
    case Note(rest) =>
      assert Flatten(c)[1..] == Flatten(rest);
      WalkIsGenuine(rest, stack);
    case Call(myself, body, _, _, rest) =>
      CallIsGenuine(c, stack);
  }

  lemma CallIsGenuine(c: Calls, stack: seq<SchemaAlkaneId>)
    requires c.Call?
    ensures Reports(Flatten(c), stack) == Genuine(c) <==> Right(c, stack)
    ensures Right(c, stack) ==> StackAfter(Flatten(c), stack) == stack
    decreases c, 0
  {
    hide Reports, StackAfter, Flatten;
    var owner := Owner(EnterContext(c.myself));
    var inner := Push(stack, owner);
    var ended := StackAfter(Flatten(c.body), inner);
    ReportsOfCall(c, stack);
    SameLength(c.body, inner);
    Append3(Reports(Flatten(c.body), inner), Report(Top(ended), c.response), Reports(Flatten(c.rest), Pop(ended)),
            Genuine(c.body), Report(owner, c.response), Genuine(c.rest));
    WalkIsGenuine(c.body, inner);
    if Right(c.body, inner) {
      assert owner.Some? ==> Pop(inner) == stack;
      if Top(inner) == owner {
        WalkIsGenuine(c.rest, stack);
      }
    }
  }

  lemma Append3<T>(a: seq<T>, x: T, b: seq<T>, c: seq<T>, y: T, d: seq<T>)
    requires |a| == |c|
    ensures a + [x] + b == c + [y] + d <==> a == c && x == y && b == d
  {
    var l, r := a + [x] + b, c + [y] + d;
    assert l[..|a|] == a && l[|a|..][0] == x && l[|a| + 1..] == b;
    assert r[..|a|] == c && r[|a|..][0] == y && r[|a| + 1..] == d;
  }

  // ---- last write wins -----------------------------------------------------------------------------------

  datatype Write = Write(owner: SchemaAlkaneId, key: Bytes, value: Bytes)

  function WritesOf(owner: SchemaAlkaneId, storage: seq<KeyValue>): seq<Write> {
    seq(|storage|, i requires 0 <= i < |storage| => Write(owner, storage[i].key, storage[i].value))
  }

  function Writes(reports: seq<Report>): seq<Write> {
    if reports == [] then []
    else
      (if reports[0].owner.Some? && reports[0].response.Some?
       then WritesOf(reports[0].owner.value, reports[0].response.value.storage) else [])
      + Writes(reports[1..])
  }

  ghost predicate IsLastWrite(writes: seq<Write>, owner: SchemaAlkaneId, key: Bytes, p: nat) {
    && p < |writes| && writes[p].owner == owner && writes[p].key == key
    && forall q :: p < q < |writes| ==> writes[q].owner != owner || writes[q].key != key
  }

  ghost predicate Untouched(writes: seq<Write>, owner: SchemaAlkaneId, key: Bytes) {
    forall q :: 0 <= q < |writes| ==> writes[q].owner != owner || writes[q].key != key
  }

  /** Under one callee and key, `writes` take the stored value from `before` to `after`: the last one wins. */
  ghost predicate LastWins(
    writes: seq<Write>, txid: Txid, owner: SchemaAlkaneId, key: Bytes, before: Option<(Txid, Bytes)>, after: Option<(Txid, Bytes)>)
  {
    && (Untouched(writes, owner, key) ==> after == before)
    && forall p: nat :: IsLastWrite(writes, owner, key, p) ==> after == Some((txid, writes[p].value))
  }

  lemma LastWinsCompose(
    a: seq<Write>, b: seq<Write>, txid: Txid, owner: SchemaAlkaneId, key: Bytes,
    before: Option<(Txid, Bytes)>, between: Option<(Txid, Bytes)>, after: Option<(Txid, Bytes)>)
    requires LastWins(a, txid, owner, key, before, between) && LastWins(b, txid, owner, key, between, after)
    ensures LastWins(a + b, txid, owner, key, before, after)
  {
    hide IsLastWrite, Untouched;
    UntouchedSplits(a, b, owner, key);
    forall p: nat | IsLastWrite(a + b, owner, key, p)
      ensures p < |a + b| && after == Some((txid, (a + b)[p].value))
    {
      LastWriteSplits(a, b, owner, key, p);
    }
  }

  lemma LastWriteSplits(a: seq<Write>, b: seq<Write>, owner: SchemaAlkaneId, key: Bytes, p: nat)
    requires IsLastWrite(a + b, owner, key, p)
    ensures p < |a + b|
    ensures p < |a| ==> IsLastWrite(a, owner, key, p) && Untouched(b, owner, key)
    ensures p >= |a| ==> IsLastWrite(b, owner, key, p - |a|)
  {
    assert forall q :: 0 <= q < |b| ==> b[q] == (a + b)[q + |a|];
    assert forall q :: 0 <= q < |a| ==> a[q] == (a + b)[q];
  }

  lemma UntouchedSplits(a: seq<Write>, b: seq<Write>, owner: SchemaAlkaneId, key: Bytes)
    ensures Untouched(a + b, owner, key) ==> Untouched(a, owner, key) && Untouched(b, owner, key)
  {
    assert forall q :: 0 <= q < |b| ==> b[q] == (a + b)[q + |a|];
    assert forall q :: 0 <= q < |a| ==> a[q] == (a + b)[q];
  }

  function Stored(entry: map<Bytes, (Txid, Bytes)>, key: Bytes): Option<(Txid, Bytes)> {
    if key in entry then Some(entry[key]) else None
  }

  function Lookup(out: StorageChanges, owner: SchemaAlkaneId, key: Bytes): Option<(Txid, Bytes)> {
    if owner in out then Stored(out[owner], key) else None
  }

  lemma OneWriteWins(entry: map<Bytes, (Txid, Bytes)>, txid: Txid, write: Write, key: Bytes)
    ensures LastWins([write], txid, write.owner, key, Stored(entry, key), Stored(entry[write.key := (txid, write.value)], key))
  {
    assert Untouched([write], write.owner, key) ==> [write][0].key != key;
  }

  lemma {:induction false} InsertLastWins(entry: map<Bytes, (Txid, Bytes)>, txid: Txid, owner: SchemaAlkaneId, storage: seq<KeyValue>, key: Bytes)
    ensures LastWins(WritesOf(owner, storage), txid, owner, key, Stored(entry, key), Stored(Insert(entry, txid, storage), key))
    decreases |storage|
  {
    hide LastWins, Stored;
    if storage == [] {
      LastWinsNothing(txid, owner, key, Stored(entry, key));
      assert WritesOf(owner, storage) == [];
    } else {
      var first := entry[storage[0].key := (txid, storage[0].value)];
      InsertLastWins(first, txid, owner, storage[1..], key);
      var write := Write(owner, storage[0].key, storage[0].value);
      OneWriteWins(entry, txid, write, key);
      assert WritesOf(owner, storage) == [write] + WritesOf(owner, storage[1..]);
      LastWinsCompose([write], WritesOf(owner, storage[1..]), txid, owner, key, Stored(entry, key), Stored(first, key),
                      Stored(Insert(entry, txid, storage), key));
    }
  }

  lemma RecordLastWins(out: StorageChanges, txid: Txid, report: Report, owner: SchemaAlkaneId, key: Bytes)
    ensures LastWins(Writes([report]), txid, owner, key, Lookup(out, owner, key), Lookup(Record(out, txid, report), owner, key))
  {
    if report.owner.Some? && report.response.Some? {
      var o := report.owner.value;
      assert Writes([report]) == WritesOf(o, report.response.value.storage);
      if o == owner {
        InsertLastWins(if o in out then out[o] else map[], txid, o, report.response.value.storage, key);
      }
    }
  }

  /** Per callee and key, the changes hold the value of the last write, with the transaction's id. */
  lemma {:induction false} LastWriteWins(out: StorageChanges, txid: Txid, reports: seq<Report>, owner: SchemaAlkaneId, key: Bytes)
    ensures LastWins(Writes(reports), txid, owner, key, Lookup(out, owner, key), Lookup(RecordAll(out, txid, reports), owner, key))
    decreases |reports|
  {
    hide Record, Lookup, LastWins;
    if reports == [] {
      LastWinsNothing(txid, owner, key, Lookup(out, owner, key));
    } else {
      var first := Record(out, txid, reports[0]);
      RecordLastWins(out, txid, reports[0], owner, key);
      LastWriteWins(first, txid, reports[1..], owner, key);
      assert [reports[0]][1..] == [];
      assert Writes(reports) == Writes([reports[0]]) + Writes(reports[1..]);
      LastWinsCompose(Writes([reports[0]]), Writes(reports[1..]), txid, owner, key, Lookup(out, owner, key),
                      Lookup(first, owner, key), Lookup(RecordAll(out, txid, reports), owner, key));
    }
  }

  lemma LastWinsNothing(txid: Txid, owner: SchemaAlkaneId, key: Bytes, value: Option<(Txid, Bytes)>)
    ensures LastWins([], txid, owner, key, value, value)
  {
  }

  // ---- what a call tree writes -----------------------------------------------------------------------------

  /** The stored id of a complete id. */
  ghost function Named(id: AlkaneId): (owner: SchemaAlkaneId)
    requires id.block.Some? && id.tx.Some?
    ensures Names(id, owner)
  {
    SchemaAlkaneId(if id.block.value < 0x1_0000_0000 then id.block.value else 0xffff_ffff,
                   if id.tx.value < 0x1_0000_0000_0000_0000 then id.tx.value else 0xffff_ffff_ffff_ffff)
  }

  /** Every callee that is named has a complete id. */
  predicate IdsComplete(c: Calls) {
    match c
    case Done => true
    case Note(rest) => IdsComplete(rest)
    case Call(myself, body, _, _, rest) =>
      (myself.Some? ==> myself.value.block.Some? && myself.value.tx.Some?) && IdsComplete(body) && IdsComplete(rest)
  }

  /** The writes of the calls, each under its own callee, in the order the calls end. */
  ghost function TreeWrites(c: Calls): seq<Write>
    requires IdsComplete(c)
  {
    match c
    case Done => []
    case Note(rest) => TreeWrites(rest)
    case Call(myself, body, _, response, rest) =>
      TreeWrites(body)
      + (if myself.Some? && response.Some? then WritesOf(Named(myself.value), response.value.storage) else [])
      + TreeWrites(rest)
  }

  /** A call of this callee gives a response. */
  ghost predicate Responds(c: Calls, owner: SchemaAlkaneId) {
    match c
    case Done => false
    case Note(rest) => Responds(rest, owner)
    case Call(myself, body, _, response, rest) =>
      (myself.Some? && Names(myself.value, owner) && response.Some?) || Responds(body, owner) || Responds(rest, owner)
  }

  lemma {:induction false} WritesConcat(a: seq<Report>, b: seq<Report>)
    ensures Writes(a + b) == Writes(a) + Writes(b)
  {
    if a == [] {
      assert a + b == b;
    } else {
      assert (a + b)[1..] == a[1..] + b;
      WritesConcat(a[1..], b);
    }
  }

  lemma OwnerIsNamed(myself: Option<AlkaneId>, owner: SchemaAlkaneId)
    ensures Owner(EnterContext(myself)) == Some(owner) <==> myself.Some? && Names(myself.value, owner)
    ensures myself.Some? && myself.value.block.Some? && myself.value.tx.Some? ==> Owner(EnterContext(myself)) == Some(Named(myself.value))
  {
    if myself.Some? {
      ToSchemaNames(myself.value, owner);
      if myself.value.block.Some? && myself.value.tx.Some? {
        ToSchemaNames(myself.value, Named(myself.value));
      }
    }
  }

  lemma {:induction false} GenuineWrites(c: Calls)
    requires IdsComplete(c)
    ensures Writes(Genuine(c)) == TreeWrites(c)
  {
    match c
    case Done =>
    case Note(rest) =>
      GenuineWrites(rest);
    case Call(myself, body, _, response, rest) =>
      hide WritesOf, Owner, Named;
      GenuineWrites(body);
      GenuineWrites(rest);
      var own := Report(Owner(EnterContext(myself)), response);
      WritesConcat(Genuine(body) + [own], Genuine(rest));
      WritesConcat(Genuine(body), [own]);
      OwnerIsNamed(myself, SchemaAlkaneId(0, 0));
      NoOwner(myself);
      assert [own][1..] == [];
      assert Writes([own]) == if myself.Some? && response.Some? then WritesOf(Named(myself.value), response.value.storage) else [];
  }

  lemma NoOwner(myself: Option<AlkaneId>)
    ensures myself.None? ==> Owner(EnterContext(myself)).None?
  {
  }

  lemma {:induction false} CompleteConverts(c: Calls)
    ensures OwnersConvert(Flatten(c)) <==> IdsComplete(c)
  {
    match c
    case Done =>
    case Note(rest) =>
      CompleteConverts(rest);
      assert forall event <- Flatten(rest) :: event in Flatten(c);
    case Call(myself, body, failed, response, rest) =>
      CompleteConverts(body);
      CompleteConverts(rest);
      var enter, exit := EnterContext(myself), ExitContext(failed, response);
      assert forall event :: event in Flatten(c) <==> event == enter || event in Flatten(body) || event == exit || event in Flatten(rest);
      assert enter in Flatten(c) && !HasBadOwner(exit);
      assert OwnersConvert(Flatten(c)) <==> !HasBadOwner(enter) && OwnersConvert(Flatten(body)) && OwnersConvert(Flatten(rest)) by {
        hide Flatten, HasBadOwner;
      }
      if myself.Some? {
        ToSchemaNames(myself.value, SchemaAlkaneId(0, 0));
      }
  }

  ghost predicate Reported(reports: seq<Report>, owner: SchemaAlkaneId) {
    exists report <- reports :: report.owner == Some(owner) && report.response.Some?
  }

  lemma {:induction false} RecordedOwners(out: StorageChanges, txid: Txid, reports: seq<Report>, owner: SchemaAlkaneId)
    ensures owner in RecordAll(out, txid, reports) <==> owner in out || Reported(reports, owner)
    decreases |reports|
  {
    if reports != [] {
      RecordedOwners(Record(out, txid, reports[0]), txid, reports[1..], owner);
      assert reports == [reports[0]] + reports[1..];
    }
  }

  lemma {:induction false} GenuineOwners(c: Calls, owner: SchemaAlkaneId)
    ensures Reported(Genuine(c), owner) <==> Responds(c, owner)
  {
    match c
    case Done =>
    case Note(rest) =>
      GenuineOwners(rest, owner);
    case Call(myself, body, _, response, rest) =>
      GenuineOwners(body, owner);
      GenuineOwners(rest, owner);
      OwnerIsNamed(myself, owner);
      var own := Report(Owner(EnterContext(myself)), response);
      assert forall report :: report in Genuine(c) <==> report in Genuine(body) || report == own || report in Genuine(rest);
  }

  /** The storage of a call tree: there is one exactly if every callee has a complete id; then the owners are exactly the
      callees that gave a response, and under each of their keys stands the last write to it. */
  ghost predicate IsTreeStorage(c: Calls, txid: Txid, r: Option<StorageChanges>) {
    && (r.Some? <==> IdsComplete(c))
    && (r.Some? ==>
          && (forall owner :: owner in r.value <==> Responds(c, owner))
          && forall owner, key :: LastWins(TreeWrites(c), txid, owner, key, None, Lookup(r.value, owner, key)))
  }

  lemma GenuineStorage(c: Calls, txid: Txid)
    ensures IsTreeStorage(c, txid, if OwnersConvert(Flatten(c)) then Some(RecordAll(map[], txid, Genuine(c))) else None)
  {
    hide LastWins, RecordAll, Genuine, OwnersConvert, IdsComplete, Responds, Writes, Lookup;
    CompleteConverts(c);
    if IdsComplete(c) {
      var out := RecordAll(map[], txid, Genuine(c));
      GenuineWrites(c);
      forall owner ensures owner in out <==> Responds(c, owner) {
        RecordedOwners(map[], txid, Genuine(c), owner);
        GenuineOwners(c, owner);
      }
      forall owner, key ensures LastWins(TreeWrites(c), txid, owner, key, None, Lookup(out, owner, key)) {
        LastWriteWins(map[], txid, Genuine(c), owner, key);
        NothingStored(owner, key);
      }
    }
  }

  lemma NothingStored(owner: SchemaAlkaneId, key: Bytes)
    ensures Lookup(map[], owner, key) == None
  {
  }

  // ---- end to end ------------------------------------------------------------------------------------------

  lemma {:induction false} TraversalCloses(c: Calls, after: seq<TraceEvent>, d: nat)
    ensures Closes(Flatten(c) + after, d) <==> Closes(after, d)
    decreases c
  {
    match c
    case Done =>
      assert Flatten(c) + after == after;
    case Note(rest) =>
      assert (Flatten(c) + after)[1..] == Flatten(rest) + after;
      TraversalCloses(rest, after, d);
    case Call(myself, body, failed, response, rest) =>
      var tail := [ExitContext(failed, response)] + (Flatten(rest) + after);
      assert Flatten(c) + after == [EnterContext(myself)] + (Flatten(body) + tail);
      assert (Flatten(c) + after)[1..] == Flatten(body) + tail;
      TraversalCloses(body, tail, d + 1);
      assert tail[1..] == Flatten(rest) + after;
      TraversalCloses(rest, after, d);
  }

  lemma {:induction false} ClosingPrefix(events: seq<TraceEvent>, removed: set<nat>, k: nat)
    requires k <= |events| && Closes(Survivors(events, removed, 0), 0)
    ensures Depth(EventViews(events), removed, k) >= 0
    ensures Closes(Survivors(events, removed, k), Depth(EventViews(events), removed, k))
  {
    hide Survivors, Closes;
    if k > 0 {
      hide Depth;
      ClosingPrefix(events, removed, k - 1);
      SurvivorsStep(events, removed, k - 1);
      if k - 1 !in removed {
        ClosesStep(Survivors(events, removed, k - 1), Depth(EventViews(events), removed, k - 1));
      }
    }
  }

  lemma TreeIsBalanced(events: seq<TraceEvent>, removed: set<nat>, c: Calls)
    requires Survivors(events, removed, 0) == Flatten(c)
    ensures Balanced(EventViews(events), removed)
  {
    TraversalCloses(c, [], 0);
    assert Flatten(c) + [] == Flatten(c);
    forall k | 0 <= k <= |events| ensures Depth(EventViews(events), removed, k) >= 0 {
      ClosingPrefix(events, removed, k);
    }
    ClosingPrefix(events, removed, |events|);
  }

  /** Every one of these events is the answer of a host function, or looks like one. */
  ghost predicate AreHostAnswers(events: seq<TraceEvent>, values: HostFunctionValues, decoders: Decoders, host: set<nat>) {
    forall i <- host :: i < |events| && (IsHostAnswer(events[i], values) || LooksLikeHostAnswer(events[i], decoders))
  }

  /** The storage read from the traversal of a call tree with answers of host functions spliced in, told from the genuine
      returns, is the storage of the tree, each call's writes under its own callee. */
  lemma StorageOfSplicedTrace(
    events: seq<TraceEvent>, txid: Txid, values: HostFunctionValues, decoders: Decoders,
    host: set<nat>, c: Calls, r: Option<StorageChanges>)
    requires Survivors(events, host, 0) == Flatten(c) && AreHostAnswers(events, values, decoders, host)
    requires Tellable(EventViews(events), values, decoders, host)
    requires WellOwned(c) && IsStorageOf(events, txid, values, decoders, r)
    ensures r == if OwnersConvert(Flatten(c)) then Some(RecordAll(map[], txid, Genuine(c))) else None
    ensures IsTreeStorage(c, txid, r)
  {
    hide Candidates, Tellable, IsRemovals, IsTreeStorage, IsHostAnswer, LooksLikeHostAnswer, Survivors, Balanced, Flatten, Reports, RecordAll, OwnersConvert, Genuine;
    TreeIsBalanced(events, host, c);
    forall i <- host ensures i in Candidates(EventViews(events), values, decoders, true) {
      CandidatesAre(events, values, decoders, i);
    }
    GenuineStorage(c, txid);
    CleanerFindsHostReturns(EventViews(events), values, decoders, host);
    var removals :| IsRemovals(EventViews(events), values, decoders, removals) &&
                    var survivors := Survivors(events, Kept(removals), 0);
                    r == if OwnersConvert(survivors) then Some(RecordAll(map[], txid, Reports(survivors, []))) else None;
    RemovalsAreUnique(EventViews(events), values, decoders, removals, Some(host));
    WalkIsGenuine(c, []);
  }

  /** A genuine return that looks like a host function's answer is taken for it, and the calling contract's
      write is booked on the contract it called. */
  lemma MistakenReturnMovesStorage(values: HostFunctionValues, decoders: Decoders, txid: Txid, a: AlkaneId, b: AlkaneId, kv: KeyValue)
    requires values.header != [] && ToSchema(a).Some? && ToSchema(b).Some? && a != b
    ensures var answer := ExitContext(false, Some(Response([], values.header, [])));
            var events := [EnterContext(Some(a)), answer, EnterContext(Some(b)), answer, ExitContext(false, Some(Response([], [], [kv])))];
            var c := Call(Some(a), Call(Some(b), Done, false, answer.response, Done), false, Some(Response([], [], [kv])), Done);
            && Survivors(events, {1}, 0) == Flatten(c)
            && IsRemovals(EventViews(events), values, decoders, Some({3}))
            && Reports(Survivors(events, {3}, 0), []) ==
               [Report(ToSchema(a), answer.response), Report(ToSchema(b), Some(Response([], [], [kv])))]
  {
    var answer := ExitContext(false, Some(Response([], values.header, [])));
    var write := ExitContext(false, Some(Response([], [], [kv])));
    var events := [EnterContext(Some(a)), answer, EnterContext(Some(b)), answer, write];
    MistakenRemoval(values, decoders, events, answer, a, b, kv);
    var body := Call(Some(b), Done, false, answer.response, Done);
    assert Flatten(body) == [EnterContext(Some(b)), answer];
    var survivors := Survivors(events, {3}, 0);
    WithoutOne(events, 1, 0);
    WithoutOne(events, 3, 0);
    assert survivors == [EnterContext(Some(a)), answer, EnterContext(Some(b)), write];
    TwoCalls(a, b, answer, write);
  }

  lemma TwoCalls(a: AlkaneId, b: AlkaneId, first: TraceEvent, second: TraceEvent)
    requires ToSchema(a).Some? && ToSchema(b).Some? && first.ExitContext? && second.ExitContext?
    ensures Reports([EnterContext(Some(a)), first, EnterContext(Some(b)), second], [])
            == [Report(ToSchema(a), first.response), Report(ToSchema(b), second.response)]
  {
    var sa, sb := ToSchema(a).value, ToSchema(b).value;
    var events := [EnterContext(Some(a)), first, EnterContext(Some(b)), second];
    assert events[3..] == [second] && [second][1..] == [];
    assert Reports(events[3..], [sb]) == [Report(Some(sb), second.response)];
    assert Reports(events[2..], []) == [Report(Some(sb), second.response)] by {
      assert events[2..][1..] == events[3..];
    }
    assert Reports(events[1..], [sa]) == [Report(Some(sa), first.response), Report(Some(sb), second.response)] by {
      assert events[1..][1..] == events[2..];
    }
  }

  lemma {:induction false} WithoutOne(events: seq<TraceEvent>, i: nat, k: nat)
    requires i < |events| && k <= |events|
    ensures Survivors(events, {i}, k) == if k <= i then events[k..i] + events[i + 1..] else events[k..]
    decreases |events| - k
  {
    if k < |events| {
      WithoutOne(events, i, k + 1);
    }
  }

  lemma MistakenRemoval(values: HostFunctionValues, decoders: Decoders, events: seq<TraceEvent>, answer: TraceEvent, a: AlkaneId, b: AlkaneId, kv: KeyValue)
    requires values.header != []
    requires answer == ExitContext(false, Some(Response([], values.header, [])))
    requires events == [EnterContext(Some(a)), answer, EnterContext(Some(b)), answer, ExitContext(false, Some(Response([], [], [kv])))]
    ensures IsRemovals(EventViews(events), values, decoders, Some({3}))
  {
    var views := EventViews(events);
    assert Depth(views, {3}, 1) == 1;
    assert Depth(views, {3}, 2) == 0;
    assert Depth(views, {3}, 3) == 1;
    assert Depth(views, {3}, 4) == 1;
    assert Depth(views, {3}, 5) == 0;
    assert Balanced(views, {3});
    CleanerFindsHostReturns(views, values, decoders, {3});
    assert 4 !in Candidates(views, values, decoders, false);
  }
}
