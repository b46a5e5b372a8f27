/** The node's block files: finding each block's place by reading record after record, and fetching a block by
    height through whichever route is open. */
module BlockFiles {
  import opened Collections

  type Hash = nat

  const MAX_BLOCK_PAYLOAD := 8_000_000
  const NEAR_TIP_RPC_THRESHOLD := 6_000
  const HEADER_LENGTH := 8

  /** The network's magic number, and the decoder: the hash of the block a payload holds, if it holds one. */
  datatype Format = Format(magic: nat, decode: Bytes -> Option<Hash>)

  datatype Location = Location(file: nat, offset: nat, len: nat)

  datatype Found = Found(hash: Hash, location: Location)

  // ---- numbers in little-endian order --------------------------------------------------------------

  function Read(b: Bytes): nat {
    if b == [] then 0 else var low: int := b[0]; low + 256 * Read(b[1..])
  }

  /** The first of four bytes counts least. */
  lemma ReadsLittleEndian(b: Bytes)
    requires |b| == 4
    ensures Read(b) == b[0] as int + 0x100 * b[1] as int + 0x1_0000 * b[2] as int + 0x100_0000 * b[3] as int
  {
    assert b[1..][1..] == b[2..] && b[2..][1..] == b[3..] && b[3..][1..] == [];
    assert Read(b[3..]) == b[3];
    assert Read(b[2..]) == b[2] as int + 256 * Read(b[3..]);
    assert Read(b[1..]) == b[1] as int + 256 * Read(b[2..]);
  }

  function Write(n: nat, bytes: nat): (b: Bytes)
    ensures |b| == bytes
  {
    if bytes == 0 then [] else [n % 256] + Write(n / 256, bytes - 1)
  }

  function Values(bytes: nat): nat {
    if bytes == 0 then 1 else 256 * Values(bytes - 1)
  }

  lemma {:induction false} ReadWrite(n: nat, bytes: nat)
    requires n < Values(bytes)
    ensures Read(Write(n, bytes)) == n
  {
    if bytes > 0 {
      ReadWrite(n / 256, bytes - 1);
      assert Write(n, bytes)[1..] == Write(n / 256, bytes - 1);
    }
  }

  lemma Values32()
    ensures Values(4) == 0x1_0000_0000
  {
    assert Values(2) == 65536;
  }

  // ---- reading a file ---------------------------------------------------------------------------------

  predicate AllZero(b: Bytes) {
    forall i :: 0 <= i < |b| ==> b[i] == 0
  }

  /** The payload length of the record at `pos`, unless the file ends, turns to padding or is no record there. */
  function RecordAt(format: Format, file: Bytes, pos: nat): (len: Option<nat>)
    ensures len.Some? ==> 0 < len.value <= 8_000_000 && pos + 8 + len.value <= |file|
  {
    if pos + HEADER_LENGTH > |file| || AllZero(file[pos..pos + HEADER_LENGTH]) then None
    else
      var magic, len := Read(file[pos..pos + 4]), Read(file[pos + 4..pos + 8]);
      if magic != format.magic || len == 0 || len > MAX_BLOCK_PAYLOAD || pos + HEADER_LENGTH + len > |file| then None
      else Some(len)
  }

  function Payload(file: Bytes, at: Location): Bytes
    requires at.offset + at.len <= |file|
  {
    file[at.offset..at.offset + at.len]
  }

  /** The records from `pos` on, up to the first place that does not hold one that decodes. */
  function Records(format: Format, file: Bytes, fileNo: nat, pos: nat): seq<Found>
    decreases |file| - pos
  {
    match RecordAt(format, file, pos)
    case None => []
    case Some(len) =>
      var at := Location(fileNo, pos + HEADER_LENGTH, len);
      match format.decode(Payload(file, at))
      case None => []
      case Some(hash) => [Found(hash, at)] + Records(format, file, fileNo, pos + HEADER_LENGTH + len)
  }

  function IndexOf(found: seq<Found>, index: map<Hash, Location>): map<Hash, Location>
    decreases |found|
  {
    if found == [] then index else IndexOf(found[1..], index[found[0].hash := found[0].location])
  }

  method IndexFile(format: Format, file: Bytes, fileNo: nat, index0: map<Hash, Location>) returns (index: map<Hash, Location>)
    ensures index == IndexOf(Records(format, file, fileNo, 0), index0)
  {
    index := index0;
    var filePos := 0;
    while true
      invariant IndexOf(Records(format, file, fileNo, 0), index0) == IndexOf(Records(format, file, fileNo, filePos), index)
      decreases |file| - filePos
    {
      var record := RecordAt(format, file, filePos);
      if record.None? {
        break;
      }
      var at := Location(fileNo, filePos + HEADER_LENGTH, record.value);
      var hash := format.decode(Payload(file, at));
      if hash.None? {
        break;
      }
      index := index[hash.value := at];
      filePos := filePos + HEADER_LENGTH + record.value;
    }
  }

  // ---- what the index says ----------------------------------------------------------------------------

  /** A location delimits a payload that decodes to the block it is listed under. */
  ghost predicate Delimits(format: Format, file: Bytes, hash: Hash, at: Location) {
    at.offset + at.len <= |file| && format.decode(Payload(file, at)) == Some(hash)
  }

  lemma {:induction false} RecordsDelimit(format: Format, file: Bytes, fileNo: nat, pos: nat, f: Found)
    requires f in Records(format, file, fileNo, pos)
    ensures f.location.file == fileNo && Delimits(format, file, f.hash, f.location)
    decreases |file| - pos
  {
    var len := RecordAt(format, file, pos).value;
    var next := pos + HEADER_LENGTH + len;
    if f in Records(format, file, fileNo, next) {
      RecordsDelimit(format, file, fileNo, next, f);
    }
  }

  ghost predicate Lists(found: seq<Found>, hash: Hash) {
    exists f :: f in found && f.hash == hash
  }

  lemma {:induction false} IndexedLast(found: seq<Found>, index: map<Hash, Location>, hash: Hash)
    ensures hash in IndexOf(found, index) <==> hash in index || Lists(found, hash)
    ensures hash in IndexOf(found, index) ==>
              Found(hash, IndexOf(found, index)[hash]) in found || (hash in index && IndexOf(found, index)[hash] == index[hash])
    decreases |found|
  {
    if found != [] {
      IndexedLast(found[1..], index[found[0].hash := found[0].location], hash);
      assert found == [found[0]] + found[1..];
    }
  }

  /** Whatever the file holds, what it adds to the index delimits the block it is listed under. */
  lemma IndexIsSound(format: Format, file: Bytes, fileNo: nat, index: map<Hash, Location>, hash: Hash)
    requires hash in IndexOf(Records(format, file, fileNo, 0), index)
    ensures var at := IndexOf(Records(format, file, fileNo, 0), index)[hash];
            (at.file == fileNo && Delimits(format, file, hash, at)) || (hash in index && at == index[hash])
  {
    var found := Records(format, file, fileNo, 0);
    IndexedLast(found, index, hash);
    var f := Found(hash, IndexOf(found, index)[hash]);
    if f in found {
      RecordsDelimit(format, file, fileNo, 0, f);
    }
  }

  // ---- round trip ---------------------------------------------------------------------------------------

  ghost predicate Storable(format: Format, payloads: seq<Bytes>) {
    && 0 < format.magic < 0x1_0000_0000
    && forall i :: 0 <= i < |payloads| ==> 0 < |payloads[i]| <= 8_000_000 && format.decode(payloads[i]).Some?
  }

  ghost function Encode(format: Format, payloads: seq<Bytes>): Bytes
    requires Storable(format, payloads)
  {
    if payloads == [] then []
    else Write(format.magic, 4) + Write(|payloads[0]|, 4) + payloads[0] + Encode(format, payloads[1..])
  }

  /** The places of the payloads when the first record starts at `pos`. */
  ghost function Places(format: Format, payloads: seq<Bytes>, fileNo: nat, pos: nat): seq<Found>
    requires Storable(format, payloads)
  {
    if payloads == [] then []
    else
      [Found(format.decode(payloads[0]).value, Location(fileNo, pos + 8, |payloads[0]|))]
      + Places(format, payloads[1..], fileNo, pos + 8 + |payloads[0]|)
  }

  /** End of file, or zero padding. */
  ghost predicate EndsHere(tail: Bytes) {
    |tail| < 8 || forall i :: 0 <= i < 8 ==> tail[i] == 0
  }

  lemma {:induction false} ReadsBack(format: Format, before: Bytes, payloads: seq<Bytes>, tail: Bytes, fileNo: nat)
    requires Storable(format, payloads) && EndsHere(tail)
    ensures Records(format, before + Encode(format, payloads) + tail, fileNo, |before|) == Places(format, payloads, fileNo, |before|)
    decreases |payloads|
  {
    hide Write, Read, RecordAt, EndsHere;
    if payloads == [] {
      assert before + [] + tail == before + tail;
      EndOfRecords(format, before, tail);
    } else {
      var p, rest := payloads[0], payloads[1..];
      var header := Write(format.magic, 4) + Write(|p|, 4);
      var before' := before + header + p;
      ReadsBack(format, before', rest, tail, fileNo);
      FirstRecord(format, before, p, Encode(format, rest) + tail);
      Regroup(before, header, p, Encode(format, rest), tail);
    }
  }

  lemma Regroup(a: Bytes, b: Bytes, c: Bytes, d: Bytes, e: Bytes)
    ensures a + (b + c + d) + e == a + b + c + (d + e) == (a + b + c) + d + e
  {
  }

  lemma EndOfRecords(format: Format, before: Bytes, tail: Bytes)
    requires EndsHere(tail)
    ensures RecordAt(format, before + tail, |before|) == None
  {
    if |tail| >= HEADER_LENGTH {
      assert (before + tail)[|before|..|before| + HEADER_LENGTH] == tail[..HEADER_LENGTH];
    }
  }

  lemma FirstRecord(format: Format, before: Bytes, p: Bytes, after: Bytes)
    requires 0 < format.magic < 0x1_0000_0000 && 0 < |p| <= MAX_BLOCK_PAYLOAD
    ensures var file := before + (Write(format.magic, 4) + Write(|p|, 4)) + p + after;
            && RecordAt(format, file, |before|) == Some(|p|)
            && file[|before| + HEADER_LENGTH..|before| + HEADER_LENGTH + |p|] == p
  {
    hide Read, Write, AllZero, Values;
    var magic, len := Write(format.magic, 4), Write(|p|, 4);
    var file := before + (magic + len) + p + after;
    HeaderParts(before, magic, len, p, after);
    Values32();
    ReadWrite(format.magic, 4);
    ReadWrite(|p|, 4);
    NotAllZero(magic, len);
  }

  /** Where the parts of a record lie. */
  lemma HeaderParts(before: Bytes, magic: Bytes, len: Bytes, p: Bytes, after: Bytes)
    requires |magic| == |len| == 4
    ensures var file := before + (magic + len) + p + after;
            && file[|before|..|before| + 4] == magic && file[|before| + 4..|before| + 8] == len
            && file[|before|..|before| + 8] == magic + len && file[|before| + 8..|before| + 8 + |p|] == p
  {
  }

  lemma NotAllZero(a: Bytes, b: Bytes)
    requires Read(a) != 0
    ensures !AllZero(a + b)
  {
    if AllZero(a + b) {
      assert forall i :: 0 <= i < |a| ==> a[i] == (a + b)[i];
      ZeroReadsZero(a);
    }
  }

  lemma {:induction false} ZeroReadsZero(a: Bytes)
    requires AllZero(a)
    ensures Read(a) == 0
  {
    if a != [] {
      ZeroReadsZero(a[1..]);
    }
  }

  /** Indexing a file of records finds every one of them, at its place. */
  lemma IndexRoundTrip(format: Format, payloads: seq<Bytes>, tail: Bytes, fileNo: nat)
    requires Storable(format, payloads) && EndsHere(tail)
    ensures Records(format, Encode(format, payloads) + tail, fileNo, 0) == Places(format, payloads, fileNo, 0)
  {
    hide Encode, Records, Places;
    ReadsBack(format, [], payloads, tail, fileNo);
    assert [] + Encode(format, payloads) + tail == Encode(format, payloads) + tail;
  }

  // ---- fetching a block -------------------------------------------------------------------------------------

  datatype Mode = Auto | RpcOnly | BlkOnly

  /** A block is its payload; `confirmations` and `rawBlock` are the node's answers, `file` the block files. */
  datatype Node = Node(
    blockHash: nat -> Option<Hash>, confirmations: Hash -> Option<int>, rawBlock: Hash -> Option<Bytes>, file: nat -> Option<Bytes>)

  /** The location delimits the block, and the node answers, counting it as part of the active chain. */
  ghost predicate Readable(node: Node, format: Format, hash: Hash, at: Location) {
    && node.file(at.file).Some? && Delimits(format, node.file(at.file).value, hash, at)
    && (forall h :: node.confirmations(h).Some?) && node.confirmations(hash).value > 0
  }

  /** The node itself hands out the block. */
  ghost predicate Served(node: Node, format: Format, hash: Hash) {
    node.rawBlock(hash).Some? && format.decode(node.rawBlock(hash).value) == Some(hash)
  }

  ghost predicate HoldsBlock(format: Format, node: Node, fileNo: nat, hash: Hash) {
    node.file(fileNo).Some? && Lists(Records(format, node.file(fileNo).value, fileNo, 0), hash)
  }

  /** A file not yet indexed that holds the block. */
  ghost predicate Unindexed(format: Format, node: Node, indexed: set<nat>, fileNo: nat, hash: Hash) {
    fileNo !in indexed && HoldsBlock(format, node, fileNo, hash)
  }

  /** Exactly the blocks of the files indexed since have been added to the index. */
  ghost predicate IndexedSince(
    format: Format, node: Node, index0: map<Hash, Location>, indexed0: set<nat>, index: map<Hash, Location>, indexed: set<nat>)
  {
    && indexed0 <= indexed
    && forall h :: h in index <==> h in index0 || exists n <- indexed :: Unindexed(format, node, indexed0, n, h)
  }

  /** Once a file holds the block or the stop block, no file after it is indexed. */
  ghost predicate StopsInTime(
    format: Format, node: Node, files: seq<nat>, indexed0: set<nat>, indexed: set<nat>, hash: Hash, stop: Option<Hash>)
  {
    Distinct(files) ==>
      forall i, j :: 0 <= j < i < |files| && files[j] in indexed - indexed0 && files[i] in indexed - indexed0 ==>
        !HoldsBlock(format, node, files[j], hash) && (stop.Some? ==> !HoldsBlock(format, node, files[j], stop.value))
  }

  /** The first `i` files have been gone through. */
  ghost predicate Indexing(
    format: Format, node: Node, files: seq<nat>, i: nat, index0: map<Hash, Location>, indexed0: set<nat>,
    index: map<Hash, Location>, indexed: set<nat>, hash: Hash, stop: Option<Hash>)
  {
    && IndexedSince(format, node, index0, indexed0, index, indexed)
    && i <= |files|
    && (forall n <- indexed :: n in indexed0 || n in files[..i])
    && (forall j :: 0 <= j < i && node.file(files[j]).Some? ==> files[j] in indexed)
    && StopsInTime(format, node, files, indexed0, indexed, hash, stop)
  }

  lemma IndexingStarts(format: Format, node: Node, files: seq<nat>, index: map<Hash, Location>, indexed: set<nat>, hash: Hash, stop: Option<Hash>)
    ensures Indexing(format, node, files, 0, index, indexed, index, indexed, hash, stop)
  {
    hide HoldsBlock;
  }

  lemma IndexingIs(
    format: Format, node: Node, files: seq<nat>, i: nat, index0: map<Hash, Location>, indexed0: set<nat>,
    index: map<Hash, Location>, indexed: set<nat>, hash: Hash, stop: Option<Hash>)
    requires Indexing(format, node, files, i, index0, indexed0, index, indexed, hash, stop)
    ensures IndexedSince(format, node, index0, indexed0, index, indexed)
    ensures StopsInTime(format, node, files, indexed0, indexed, hash, stop)
  {
  }

  lemma IndexingSkips(
    format: Format, node: Node, files: seq<nat>, i: nat, index0: map<Hash, Location>, indexed0: set<nat>,
    index: map<Hash, Location>, indexed: set<nat>, hash: Hash, stop: Option<Hash>)
    requires Indexing(format, node, files, i, index0, indexed0, index, indexed, hash, stop) && i < |files|
    requires files[i] in indexed || node.file(files[i]).None?
    ensures Indexing(format, node, files, i + 1, index0, indexed0, index, indexed, hash, stop)
  {
    hide IndexedSince, StopsInTime;
    assert files[..i + 1] == files[..i] + [files[i]];
  }

  lemma IndexingAdds(
    format: Format, node: Node, files: seq<nat>, i: nat, index0: map<Hash, Location>, indexed0: set<nat>,
    index: map<Hash, Location>, indexed: set<nat>, hash: Hash, stop: Option<Hash>)
    requires Indexing(format, node, files, i, index0, indexed0, index, indexed, hash, stop) && i < |files|
    requires files[i] !in indexed && node.file(files[i]).Some? && hash !in index && (stop.Some? ==> stop.value !in index)
    ensures var more := IndexOf(Records(format, node.file(files[i]).value, files[i], 0), index);
            Indexing(format, node, files, i + 1, index0, indexed0, more, indexed + {files[i]}, hash, stop)
  {
    hide HoldsBlock, StopsInTime, IndexOf, Records;
    assert files[..i + 1] == files[..i] + [files[i]];
    SinceAdds(format, node, files[i], index0, indexed0, index, indexed);
    StopsAdds(format, node, files, i, index0, indexed0, index, indexed, hash, stop);
  }

  lemma SinceAdds(
    format: Format, node: Node, f: nat, index0: map<Hash, Location>, indexed0: set<nat>, index: map<Hash, Location>, indexed: set<nat>)
    requires IndexedSince(format, node, index0, indexed0, index, indexed) && f !in indexed && node.file(f).Some?
    ensures IndexedSince(format, node, index0, indexed0, IndexOf(Records(format, node.file(f).value, f, 0), index), indexed + {f})
  {
    hide IndexOf, Records, Lists;
    var found := Records(format, node.file(f).value, f, 0);
    var more := IndexOf(found, index);
    forall h ensures h in more <==> h in index0 || exists n <- indexed + {f} :: Unindexed(format, node, indexed0, n, h) {
      IndexedLast(found, index, h);
      if Lists(found, h) {
        assert f in indexed + {f} && Unindexed(format, node, indexed0, f, h);
      }
      if h in index && h !in index0 {
        var n :| n in indexed && Unindexed(format, node, indexed0, n, h);
        assert n in indexed + {f};
      }
    }
  }

  lemma NotHeld(
    format: Format, node: Node, index0: map<Hash, Location>, indexed0: set<nat>, index: map<Hash, Location>, indexed: set<nat>, f: nat, hash: Hash)
    requires IndexedSince(format, node, index0, indexed0, index, indexed) && f in indexed - indexed0 && hash !in index
    ensures !HoldsBlock(format, node, f, hash)
  {
    hide HoldsBlock;
    assert HoldsBlock(format, node, f, hash) ==> Unindexed(format, node, indexed0, f, hash);
  }

  lemma StopsAdds(
    format: Format, node: Node, files: seq<nat>, i: nat, index0: map<Hash, Location>, indexed0: set<nat>,
    index: map<Hash, Location>, indexed: set<nat>, hash: Hash, stop: Option<Hash>)
    requires Indexing(format, node, files, i, index0, indexed0, index, indexed, hash, stop) && i < |files|
    requires files[i] !in indexed && hash !in index && (stop.Some? ==> stop.value !in index)
    ensures StopsInTime(format, node, files, indexed0, indexed + {files[i]}, hash, stop)
  {
    hide HoldsBlock;
    var more := indexed + {files[i]};
    if Distinct(files) {
      forall k | i < k < |files| ensures files[k] !in files[..i] && files[k] != files[i] {
      }
      forall k, j | 0 <= j < k < |files| && files[j] in more - indexed0 && files[k] in more - indexed0
        ensures !HoldsBlock(format, node, files[j], hash) && (stop.Some? ==> !HoldsBlock(format, node, files[j], stop.value))
      {
        assert j < i && files[j] in indexed;
        NotHeld(format, node, index0, indexed0, index, indexed, files[j], hash);
        if stop.Some? {
          NotHeld(format, node, index0, indexed0, index, indexed, files[j], stop.value);
        }
      }
    }
  }

  lemma IndexingFinds(
    format: Format, node: Node, files: seq<nat>, index0: map<Hash, Location>, indexed0: set<nat>,
    index: map<Hash, Location>, indexed: set<nat>, hash: Hash, stop: Option<Hash>)
    requires Indexing(format, node, files, |files|, index0, indexed0, index, indexed, hash, stop)
    ensures hash !in index ==> !exists i :: 0 <= i < |files| && Unindexed(format, node, indexed0, files[i], hash)
  {
    hide StopsInTime, Lists, Records;
    if i :| 0 <= i < |files| && Unindexed(format, node, indexed0, files[i], hash) {
      assert files[i] in indexed;
    }
  }

  predicate IsActive(node: Node, hash: Hash) {
    node.confirmations(hash).Some? && node.confirmations(hash).value > 0
  }

  /** The node answers for every block of the file. */
  ghost predicate Answers(node: Node, found: seq<Found>) {
    forall f <- found :: node.confirmations(f.hash).Some?
  }

  /** With the records in `rest` still to be read, the cache has the active ones of the others. */
  ghost predicate Caching(node: Node, all: seq<Found>, rest: seq<Found>, cache: map<Hash, Bytes>) {
    && (Answers(node, all) <==> Answers(node, rest))
    && forall h :: IsActive(node, h) && Lists(all, h) <==> h in cache || (IsActive(node, h) && Lists(rest, h))
  }

  lemma CachingStep(node: Node, all: seq<Found>, f: Found, rest: seq<Found>, cache: map<Hash, Bytes>, payload: Bytes)
    requires Caching(node, all, [f] + rest, cache) && node.confirmations(f.hash).Some?
    ensures Caching(node, all, rest, if node.confirmations(f.hash).value > 0 then cache[f.hash := payload] else cache)
  {
    var found := [f] + rest;
    forall h ensures Lists(found, h) <==> f.hash == h || Lists(rest, h) {
      ListsMore(f, rest, h);
    }
    assert Answers(node, found) <==> Answers(node, rest);
  }

  lemma CachingStarts(node: Node, all: seq<Found>)
    ensures Caching(node, all, all, map[])
  {
  }

  lemma CachingFails(node: Node, all: seq<Found>, f: Found, rest: seq<Found>, cache: map<Hash, Bytes>)
    requires Caching(node, all, rest, cache) && f in rest && node.confirmations(f.hash).None?
    ensures !Answers(node, all)
  {
  }

  lemma CachingEnds(node: Node, all: seq<Found>, cache: map<Hash, Bytes>)
    requires Caching(node, all, [], cache)
    ensures Answers(node, all) && forall h :: h in cache <==> IsActive(node, h) && Lists(all, h)
  {
  }

  lemma ListsMore(f: Found, rest: seq<Found>, h: Hash)
    ensures Lists([f] + rest, h) <==> f.hash == h || Lists(rest, h)
  {
    var found := [f] + rest;
    assert found[0] == f;
    assert forall g <- rest :: g in found;
  }

  class BlockSource {
    const format: Format
    const mode: Mode
    const files: seq<nat>
    const stopHash: Option<Hash>
    var index: map<Hash, Location>
    var indexed: set<nat>
    var cachedFile: Option<nat>
    var cache: map<Hash, Bytes>
    var heightMap: map<nat, Hash>

    /** The cache holds every block under its own hash. */
    ghost predicate Sound()
      reads this
    {
      forall h <- cache :: format.decode(cache[h]) == Some(h)
    }

    constructor (format: Format, mode: Mode, files: seq<nat>, stopHash: Option<Hash>, index: map<Hash, Location>, indexed: set<nat>)
      ensures Sound() && this.format == format && this.mode == mode && this.index == index && this.indexed == indexed
    {
      this.format, this.mode, this.files, this.stopHash := format, mode, files, stopHash;
      this.index, this.indexed := index, indexed;
      cachedFile, cache, heightMap := None, map[], map[];
    }

    /** Decodes a whole file into the cache, keeping the blocks of the active chain; `false` if the node fails. */
    method CacheFile(node: Node, fileNo: nat) returns (ok: bool)
      requires Sound()
      modifies this`cache, this`cachedFile
      ensures Sound()
      ensures ok <==> old(cachedFile) == Some(fileNo) ||
                      (node.file(fileNo).Some? && Answers(node, Records(format, node.file(fileNo).value, fileNo, 0)))
      ensures old(cachedFile) == Some(fileNo) ==> cache == old(cache)
      ensures old(cachedFile) != Some(fileNo) ==> forall h <- cache :: IsActive(node, h)
      ensures ok && old(cachedFile) != Some(fileNo) ==> forall h :: h in cache <==> IsActive(node, h) && HoldsBlock(format, node, fileNo, h)
      ensures cachedFile == Some(fileNo)
    {
      hide Caching, Answers, Lists;
      if cachedFile == Some(fileNo) {
        return true;
      }
      cache, cachedFile := map[], Some(fileNo);
      if node.file(fileNo).None? {
        return false;
      }
      var file := node.file(fileNo).value;
      var filePos := 0;
      ghost var all := Records(format, file, fileNo, 0);
      CachingStarts(node, all);
      while true
        invariant Sound() && cachedFile == Some(fileNo)
        invariant Caching(node, all, Records(format, file, fileNo, filePos), cache)
        invariant forall h <- cache :: IsActive(node, h)
        decreases |file| - filePos
      {
        var record := RecordAt(format, file, filePos);
        if record.None? {
          break;
        }
        var at := Location(fileNo, filePos + HEADER_LENGTH, record.value);
        var payload := Payload(file, at);
        var hash := format.decode(payload);
        if hash.None? {
          break;
        }
        var confirmations := node.confirmations(hash.value);
        if confirmations.None? {
          CachingFails(node, all, Found(hash.value, at), Records(format, file, fileNo, filePos), cache);
          return false;
        }
        CachingStep(node, all, Found(hash.value, at), Records(format, file, fileNo, filePos + HEADER_LENGTH + record.value), cache, payload);
        if confirmations.value > 0 {
          cache := cache[hash.value := payload];
        }
        filePos := filePos + HEADER_LENGTH + record.value;
      }
      CachingEnds(node, all, cache);
      ok := true;
    }

    /** The block at a location, from the cache or by reading just its bytes. */
    method ReadBlock(node: Node, hash: Hash, at: Location) returns (r: Option<Bytes>)
      requires Sound()
      modifies this`cache, this`cachedFile
      ensures Sound()
      ensures r.Some? ==> format.decode(r.value) == Some(hash)
      ensures Readable(node, format, hash, at) ==> r.Some?
      ensures r.Some? ==> hash in cache && cache[hash] == r.value
      ensures r.Some? ==> IsActive(node, hash) || (old(cachedFile) == Some(at.file) && hash in old(cache))
      ensures old(cachedFile) == Some(at.file) ==> forall h <- cache :: h in old(cache) || IsActive(node, h)
      ensures old(cachedFile) != Some(at.file) ==> forall h <- cache :: IsActive(node, h)
    {
      var ok := CacheFile(node, at.file);
      if !ok {
        return None;
      }
      if hash in cache {
        return Some(cache[hash]);
      }
      if node.file(at.file).None? || at.offset + at.len > |node.file(at.file).value| {
        return None;
      }
      var payload := Payload(node.file(at.file).value, at);
      if format.decode(payload) != Some(hash) {
        return None;
      }
      var confirmations := node.confirmations(hash);
      if confirmations.None? || confirmations.value <= 0 {
        return None;
      }
      cache := cache[hash := payload];
      r := Some(payload);
    }

    method FromRpc(node: Node, hash: Hash) returns (r: Option<Bytes>)
      ensures r.Some? ==> format.decode(r.value) == Some(hash)
      ensures r.Some? <==> Served(node, format, hash)
    {
      r := node.rawBlock(hash);
      if r.Some? && format.decode(r.value) != Some(hash) {
        r := None;
      }
    }

    /** Indexes files, newest first, until the hash turns up or the file of the genesis block has been read. */
    method EnsureIndexContains(node: Node, hash: Hash) returns (found: bool)
      requires Sound()
      modifies this`index, this`indexed
      ensures Sound()
      ensures found <==> hash in index
      ensures IndexedSince(format, node, old(index), old(indexed), index, indexed)
      ensures StopsInTime(format, node, files, old(indexed), indexed, hash, stopHash)
      ensures hash in old(index) || (stopHash.Some? && stopHash.value in old(index)) ==> index == old(index) && indexed == old(indexed)
      ensures !found ==> (stopHash.Some? && stopHash.value in index) ||
                         !exists i :: 0 <= i < |files| && Unindexed(format, node, old(indexed), files[i], hash)
    {
      hide IndexedSince, StopsInTime, Indexing, Unindexed;
      IndexingStarts(format, node, files, index, indexed, hash, stopHash);
      IndexingIs(format, node, files, 0, index, indexed, index, indexed, hash, stopHash);
      if hash in index {
        return true;
      }
      if stopHash.Some? && stopHash.value in index {
        return false;
      }
      for i := 0 to |files|
        invariant Sound() && Indexing(format, node, files, i, old(index), old(indexed), index, indexed, hash, stopHash)
      {
        if hash in index || (stopHash.Some? && stopHash.value in index) {
          found := hash in index;
          IndexingIs(format, node, files, i, old(index), old(indexed), index, indexed, hash, stopHash);
          return;
        }
        if files[i] in indexed {
          IndexingSkips(format, node, files, i, old(index), old(indexed), index, indexed, hash, stopHash);
          continue;
        }
        if node.file(files[i]).Some? {
          IndexingAdds(format, node, files, i, old(index), old(indexed), index, indexed, hash, stopHash);
          index := IndexFile(format, node.file(files[i]).value, files[i], index);
          indexed := indexed + {files[i]};
        } else {
          IndexingSkips(format, node, files, i, old(index), old(indexed), index, indexed, hash, stopHash);
        }
      }
      IndexingFinds(format, node, files, old(index), old(indexed), index, indexed, hash, stopHash);
      IndexingIs(format, node, files, |files|, old(index), old(indexed), index, indexed, hash, stopHash);
      found := hash in index;
    }

    method FromFiles(node: Node, hash: Hash) returns (r: Option<Bytes>)
      requires Sound() && hash in index
      modifies this`cache, this`cachedFile
      ensures Sound()
      ensures r.Some? ==> format.decode(r.value) == Some(hash)
      ensures Readable(node, format, hash, index[hash]) || (mode != BlkOnly && Served(node, format, hash)) ==> r.Some?
      ensures old(cachedFile) != Some(index[hash].file) ==> forall h <- cache :: IsActive(node, h)
    {
      r := ReadBlock(node, hash, index[hash]);
      if r.None? && mode != BlkOnly {
        r := FromRpc(node, hash);
      }
    }

    /** Whichever route is taken, a block that comes back has the hash the node gives for the height. */
    method GetBlockByHeight(node: Node, height: nat, tip: nat) returns (r: Option<Bytes>)
      requires Sound()
      modifies this
      ensures Sound()
      ensures r.Some? ==> node.blockHash(height).Some? && format.decode(r.value) == node.blockHash(height)
      ensures mode != BlkOnly && node.blockHash(height).Some? && Served(node, format, node.blockHash(height).value) ==> r.Some?
      ensures (mode == BlkOnly || (mode == Auto && height + 6_000 < tip)) && node.blockHash(height).Some? && node.blockHash(height).value in old(index) ==>
                var hash := node.blockHash(height).value;
                Readable(node, format, hash, old(index)[hash]) ==> r.Some?
      ensures mode != RpcOnly && node.blockHash(height).Some? ==> heightMap == old(heightMap)[height := node.blockHash(height).value]
      ensures mode != RpcOnly && node.blockHash(height).Some? && height in old(heightMap) && old(heightMap)[height] != node.blockHash(height).value ==>
                forall h <- cache :: IsActive(node, h)
      ensures mode == RpcOnly || (mode == Auto && tip <= height + 6_000) ==>
                (r.Some? <==> node.blockHash(height).Some? && Served(node, format, node.blockHash(height).value))
    {
      var answer := node.blockHash(height);
      if answer.None? {
        return None;
      }
      var hash := answer.value;
      if mode == RpcOnly {
        r := FromRpc(node, hash);
        return;
      }
      if height in heightMap && heightMap[height] != hash {
        cache, cachedFile := map[], None;
      }
      heightMap := heightMap[height := hash];
      if mode != BlkOnly && Monus(tip, height) <= NEAR_TIP_RPC_THRESHOLD {
        r := FromRpc(node, hash);
        return;
      }
      if hash in index {
        r := FromFiles(node, hash);
        return;
      }
      var found := EnsureIndexContains(node, hash);
      if found {
        r := FromFiles(node, hash);
        return;
      }
      if mode == BlkOnly {
        return None;
      }
      r := FromRpc(node, hash);
    }
  }
}
