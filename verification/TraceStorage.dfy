/** Reading storage changes out of an execution trace: the cleaned events are walked with a stack of callees,
    and what a call's exit reports is recorded for the callee on top. */
module TraceStorage {
  import opened Collections
  import opened OrphanReturns

  type Txid = nat

  const MAX_U32 := 0xffff_ffff
  const MAX_U64 := 0xffff_ffff_ffff_ffff

  /** Both halves are 128-bit numbers that a message may leave out. */
  datatype AlkaneId = AlkaneId(block: Option<nat>, tx: Option<nat>)

  datatype SchemaAlkaneId = SchemaAlkaneId(block: nat, tx: nat)

  datatype KeyValue = KeyValue(key: Bytes, value: Bytes)

  datatype Response = Response(alkanes: seq<(AlkaneId, nat)>, data: Bytes, storage: seq<KeyValue>)

  /** `OtherEvent` stands for creations, intents, value transfers and empty events. */
  datatype TraceEvent =
    | EnterContext(myself: Option<AlkaneId>)
    | ExitContext(failed: bool, response: Option<Response>)
    | OtherEvent

  type StorageChanges = map<SchemaAlkaneId, map<Bytes, (Txid, Bytes)>>

  /** Too large a number is stored as the largest one that fits; a missing one is an error. */
  function ToSchema(id: AlkaneId): Option<SchemaAlkaneId> {
    if id.block.None? || id.tx.None? then None
    else Some(SchemaAlkaneId(
                if id.block.value <= MAX_U32 then id.block.value else MAX_U32,
                if id.tx.value <= MAX_U64 then id.tx.value else MAX_U64))
  }

  /** The way back: both halves are there. */
  function FromSchema(id: SchemaAlkaneId): AlkaneId {
    AlkaneId(Some(id.block), Some(id.tx))
  }

  /** The stored id of `id`: its own halves, the block cut off at 32 bits and the transaction at 64. */
  ghost predicate Names(id: AlkaneId, owner: SchemaAlkaneId) {
    && id.block.Some? && id.tx.Some?
    && owner.block == (if id.block.value < 0x1_0000_0000 then id.block.value else 0xffff_ffff)
    && owner.tx == (if id.tx.value < 0x1_0000_0000_0000_0000 then id.tx.value else 0xffff_ffff_ffff_ffff)
  }

  /** An id converts exactly if both halves are there, and then to the id it names. */
  lemma ToSchemaNames(id: AlkaneId, owner: SchemaAlkaneId)
    ensures ToSchema(id) == Some(owner) <==> Names(id, owner)
    ensures ToSchema(id).None? <==> id.block.None? || id.tx.None?
  {
  }

  /** Going back and forth loses nothing, from a stored id always and from a message's id exactly if its halves fit. */
  lemma SchemaRoundTrip(owner: SchemaAlkaneId, id: AlkaneId)
    requires owner.block < 0x1_0000_0000 && owner.tx < 0x1_0000_0000_0000_0000
    ensures ToSchema(FromSchema(owner)) == Some(owner)
    ensures ToSchema(id).Some? ==>
              (FromSchema(ToSchema(id).value) == id <==> id.block.value < 0x1_0000_0000 && id.tx.value < 0x1_0000_0000_0000_0000)
  {
  }

  function EventView(event: TraceEvent): CleanEventView {
    match event
    case EnterContext(_) => Invoke
    case ExitContext(failed, response) =>
      Return(
        if failed then None
        else if response.None? then Some([])
        else if response.value.alkanes == [] && response.value.storage == [] then Some(response.value.data)
        else None)
    case OtherEvent => Other
  }

  function EventViews(events: seq<TraceEvent>): (views: seq<CleanEventView>)
    ensures |views| == |events|
  {
    seq(|events|, i requires 0 <= i < |events| => EventView(events[i]))
  }

  // ---- which events the cleaner may remove ----------------------------------------------------------------

  /** What a successful exit without transfers and storage answers; without a response, nothing at all. */
  ghost predicate AnswersWith(event: TraceEvent, data: Bytes) {
    && event.ExitContext? && !event.failed
    && (if event.response.None? then data == []
        else event.response.value.alkanes == [] && event.response.value.storage == [] && event.response.value.data == data)
  }

  /** The answer of a host function: the header, the coinbase, the diesel mint or the fee of the block. */
  ghost predicate IsHostAnswer(event: TraceEvent, host: HostFunctionValues) {
    exists data :: AnswersWith(event, data) && data != [] && data in {host.header, host.coinbase, host.diesel, host.fee}
  }

  /** An answer that looks like one: some header, or some coinbase transaction. */
  ghost predicate LooksLikeHostAnswer(event: TraceEvent, decoders: Decoders) {
    exists data :: AnswersWith(event, data) && ((|data| == 80 && decoders.isHeader(data)) || decoders.isCoinbase(data))
  }

  /** The candidates are exactly the events that are, or for a fuzzy match look like, the answer of a host function. */
  lemma CandidatesAre(events: seq<TraceEvent>, host: HostFunctionValues, decoders: Decoders, i: nat)
    ensures i in Candidates(EventViews(events), host, decoders, false) <==> i < |events| && IsHostAnswer(events[i], host)
    ensures i in Candidates(EventViews(events), host, decoders, true) <==>
            i < |events| && (IsHostAnswer(events[i], host) || LooksLikeHostAnswer(events[i], decoders))
  {
    if i < |events| {
      var view := EventView(events[i]);
      forall data ensures AnswersWith(events[i], data) <==> view.Return? && view.candidateData == Some(data) {
      }
    }
  }

  /** The events from position `k` on that are not removed. */
  function Survivors(events: seq<TraceEvent>, removed: set<nat>, k: nat): seq<TraceEvent>
    requires k <= |events|
    decreases |events| - k
  {
    if k == |events| then []
    else (if k in removed then [] else [events[k]]) + Survivors(events, removed, k + 1)
  }

  // ---- the walk ------------------------------------------------------------------------------------

  /** What an exit reports, and the callee it is booked on, if any. */
  datatype Report = Report(owner: Option<SchemaAlkaneId>, response: Option<Response>)

  function Owner(event: TraceEvent): Option<SchemaAlkaneId> {
    if event.EnterContext? && event.myself.Some? then ToSchema(event.myself.value) else None
  }

  predicate HasBadOwner(event: TraceEvent) {
    event.EnterContext? && event.myself.Some? && ToSchema(event.myself.value).None?
  }

  predicate OwnersConvert(events: seq<TraceEvent>) {
    forall event <- events :: !HasBadOwner(event)
  }

  function Push(stack: seq<SchemaAlkaneId>, owner: Option<SchemaAlkaneId>): seq<SchemaAlkaneId> {
    if owner.Some? then stack + [owner.value] else stack
  }

  function Top(stack: seq<SchemaAlkaneId>): Option<SchemaAlkaneId> {
    if stack == [] then None else Some(stack[|stack| - 1])
  }

  function Pop(stack: seq<SchemaAlkaneId>): seq<SchemaAlkaneId> {
    if stack == [] then [] else stack[..|stack| - 1]
  }

  /** The reports of a walk that starts with `stack`, in trace order. */
  function Reports(events: seq<TraceEvent>, stack: seq<SchemaAlkaneId>): seq<Report> {
    if events == [] then []
    else match events[0]
      case EnterContext(_) => Reports(events[1..], Push(stack, Owner(events[0])))
      case ExitContext(_, response) => [Report(Top(stack), response)] + Reports(events[1..], Pop(stack))
      case OtherEvent => Reports(events[1..], stack)
  }

  function StackAfter(events: seq<TraceEvent>, stack: seq<SchemaAlkaneId>): seq<SchemaAlkaneId> {
    if events == [] then stack
    else match events[0]
      case EnterContext(_) => StackAfter(events[1..], Push(stack, Owner(events[0])))
      case ExitContext(_, _) => StackAfter(events[1..], Pop(stack))
      case OtherEvent => StackAfter(events[1..], stack)
  }

  function Insert(entry: map<Bytes, (Txid, Bytes)>, txid: Txid, storage: seq<KeyValue>): map<Bytes, (Txid, Bytes)>
    decreases |storage|
  {
    if storage == [] then entry
    else Insert(entry[storage[0].key := (txid, storage[0].value)], txid, storage[1..])
  }

  function Record(out: StorageChanges, txid: Txid, report: Report): StorageChanges {
    if report.owner.None? || report.response.None? then out
    else
      var owner := report.owner.value;
      var entry := if owner in out then out[owner] else map[];
      out[owner := Insert(entry, txid, report.response.value.storage)]
  }

  function RecordAll(out: StorageChanges, txid: Txid, reports: seq<Report>): StorageChanges
    decreases |reports|
  {
    if reports == [] then out else RecordAll(Record(out, txid, reports[0]), txid, reports[1..])
  }

  method InsertAll(entry: map<Bytes, (Txid, Bytes)>, txid: Txid, storage: seq<KeyValue>) returns (r: map<Bytes, (Txid, Bytes)>)
    ensures r == Insert(entry, txid, storage)
  {
    r := entry;
    for i := 0 to |storage|
      invariant Insert(entry, txid, storage) == Insert(r, txid, storage[i..])
    {
      r := r[storage[i].key := (txid, storage[i].value)];
    }
  }

  function Kept(removals: Option<set<nat>>): set<nat> {
    if removals.Some? then removals.value else {}
  }

  /** The storage changes of a trace; `None` if a surviving callee has no complete id. */
  ghost predicate IsStorageOf(
    events: seq<TraceEvent>, txid: Txid, host: HostFunctionValues, decoders: Decoders, r: Option<StorageChanges>)
  {
    exists removals :: IsRemovals(EventViews(events), host, decoders, removals) &&
      var survivors := Survivors(events, Kept(removals), 0);
      r == if OwnersConvert(survivors) then Some(RecordAll(map[], txid, Reports(survivors, []))) else None
  }

  method ExtractAlkaneStorage(events: seq<TraceEvent>, txid: Txid, host: HostFunctionValues, decoders: Decoders)
    returns (r: Option<StorageChanges>)
    ensures IsStorageOf(events, txid, host, decoders, r)
  {
    var out: StorageChanges := map[];
    var stack: seq<SchemaAlkaneId> := [];
    var removals := OrphanReturnRemovals(EventViews(events), host, decoders);
    var removed := Kept(removals);
    ghost var survivors := Survivors(events, removed, 0);
    for idx := 0 to |events|
      invariant OwnersConvert(survivors) <==> OwnersConvert(Survivors(events, removed, idx))
      invariant RecordAll(map[], txid, Reports(survivors, [])) == RecordAll(out, txid, Reports(Survivors(events, removed, idx), stack))
    {
      hide IsRemovals, RecordAll;
      ghost var later := Survivors(events, removed, idx);
      assert idx !in removed ==> later[0] == events[idx] && later[1..] == Survivors(events, removed, idx + 1);
      assert idx in removed ==> later == Survivors(events, removed, idx + 1);
      if idx in removed {
        continue;
      }
      OwnersConvertStep(later);
      match events[idx]
      case EnterContext(myself) =>
        if myself.Some? {
          var owner := ToSchema(myself.value);
          if owner.None? {
            return None;
          }
          stack := stack + [owner.value];
        }
      case ExitContext(_, response) =>
        RecordAllStep(out, txid, Reports(later, stack));
        if stack == [] {
          continue;
        }
        var owner := stack[|stack| - 1];
        stack := stack[..|stack| - 1];
        if response.Some? {
          var entry := InsertAll(if owner in out then out[owner] else map[], txid, response.value.storage);
          out := out[owner := entry];
        }
      case OtherEvent =>
    }
    r := Some(out);
  }

  lemma OwnersConvertStep(events: seq<TraceEvent>)
    requires events != []
    ensures OwnersConvert(events) <==> !HasBadOwner(events[0]) && OwnersConvert(events[1..])
  {
    assert events == [events[0]] + events[1..];
  }

  lemma RecordAllStep(out: StorageChanges, txid: Txid, reports: seq<Report>)
    requires reports != []
    ensures RecordAll(out, txid, reports) == RecordAll(Record(out, txid, reports[0]), txid, reports[1..])
  {
  }
}
