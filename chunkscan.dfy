/**
 * Building the record table in src/worker.py: `read_buffer` turns one chunk
 * of the MFT into a table of the valid records in it, `scan` splits the id
 * space into chunks, reads each chunk from the volume image and merges the
 * chunk tables in the order the workers complete.
 *
 * The volume image is the byte sequence `image`; a chunk read is a clamped
 * slice of it. The thread pool is the sequential loop below, and the order in
 * which `as_completed` hands back the results is the parameter `order`.
 */
module ChunkScan {
  import opened Bytes
  import opened Record
  import opened Tables

  const EntrySize: nat := 1024
  const ChunkSize: nat := 5000
  const MaxEntries: nat := 2_000_000

  // -------------------------------------------------------- read_buffer

  /** Slot `i` of a chunk: `chunk_data[i*1024 : i*1024 + 1024]`. */
  function SlotOf(chunk: seq<byte>, i: nat): seq<byte> {
    Slice(chunk, EntrySize * i, EntrySize * i + EntrySize)
  }

  /** The first `count` slots of a chunk. */
  function Slots(chunk: seq<byte>, count: nat): (slots: seq<seq<byte>>)
    ensures |slots| == count
  {
    seq(count, i requires 0 <= i < count => SlotOf(chunk, i))
  }

  /** The value stored for a valid record: its name and parent as `filename` returns them, and its bytes. */
  function RowOf(data: seq<byte>): Row {
    var parsed := ParsedName(data);
    Row(parsed.0, parsed.1, data)
  }

  /**
   * What one pass of `read_buffer`'s loop body makes of a slot: the value to
   * store, or None when nothing is stored.
   */
  type SlotVisitor = seq<byte> -> Option<Row>

  /** The table `read_buffer` has built after the first `n` slots, when a pass over a slot is `visit`. */
  function Kept(slots: seq<seq<byte>>, start: nat, n: nat, visit: SlotVisitor): (t: Table)
    requires n <= |slots|
    ensures Valid(t)
  {
    if n == 0 then Empty()
    else
      var m := n - 1;
      var t := Kept(slots, start, m, visit);
      match visit(slots[m])
      case Some(row) => Set(t, start + m, row)
      case None => t
  }

  /** One more slot: its id is added with the value its pass stores, and every other id keeps its value. */
  lemma KeptStep(slots: seq<seq<byte>>, start: nat, n: nat, visit: SlotVisitor)
    requires 0 < n <= |slots|
    ensures var m := n - 1;
      var t, u := Kept(slots, start, m, visit), Kept(slots, start, n, visit);
      u.rows == if visit(slots[m]).Some? then t.rows[start + m := visit(slots[m]).value] else t.rows
  {
    var m := n - 1;
    var t := Kept(slots, start, m, visit);
    match visit(slots[m])
    case Some(v) =>
      SetMeaning(t, start + m, v);
    case None =>
  }

  /** The contents of `Kept`, built as a plain map. */
  function KeptRows(slots: seq<seq<byte>>, start: nat, n: nat, visit: SlotVisitor): map<nat, Row>
    requires n <= |slots|
  {
    if n == 0 then map[]
    else
      var m := n - 1;
      var r := KeptRows(slots, start, m, visit);
      if visit(slots[m]).Some? then r[start + m := visit(slots[m]).value] else r
  }

  lemma {:induction false} KeptRowsAgree(slots: seq<seq<byte>>, start: nat, n: nat, visit: SlotVisitor)
    requires n <= |slots|
    ensures Kept(slots, start, n, visit).rows == KeptRows(slots, start, n, visit)
  {
    if n > 0 {
      KeptRowsAgree(slots, start, n - 1, visit);
      KeptStep(slots, start, n, visit);
    }
  }

  lemma {:induction false} KeptRowsMeaning(slots: seq<seq<byte>>, start: nat, n: nat, visit: SlotVisitor, k: nat)
    requires n <= |slots|
    ensures k in KeptRows(slots, start, n, visit) <==> start <= k < start + n && visit(slots[k - start]).Some?
    ensures k in KeptRows(slots, start, n, visit) ==> KeptRows(slots, start, n, visit)[k] == visit(slots[k - start]).value
  {
    if n > 0 {
      var m := n - 1;
      KeptRowsMeaning(slots, start, m, visit, k);
      if k == start + m {
        assert slots[k - start] == slots[m];
      }
    }
  }

  /** The table holds id `k` exactly when `k` is one of the first `n` ids and the pass over its slot stores a value, which it holds. */
  lemma KeptMeaning(slots: seq<seq<byte>>, start: nat, n: nat, visit: SlotVisitor, k: nat)
    requires n <= |slots|
    ensures k in Kept(slots, start, n, visit).rows <==> start <= k < start + n && visit(slots[k - start]).Some?
    ensures k in Kept(slots, start, n, visit).rows ==> Kept(slots, start, n, visit).rows[k] == visit(slots[k - start]).value
  {
    KeptRowsAgree(slots, start, n, visit);
    KeptRowsMeaning(slots, start, n, visit, k);
  }

  predicate Within(ks: seq<nat>, lo: nat, hi: nat) {
    forall i :: 0 <= i < |ks| ==> lo <= ks[i] < hi
  }

  predicate Ascending(ks: seq<nat>) {
    forall i, j :: 0 <= i < j < |ks| ==> ks[i] < ks[j]
  }

  /** Appending a key past every key keeps the order ascending. */
  lemma AppendAscending(ks: seq<nat>, lo: nat, key: nat)
    requires Within(ks, lo, key) && Ascending(ks) && lo <= key
    ensures Within(ks + [key], lo, key + 1) && Ascending(ks + [key])
  {
  }

  lemma WithinWiden(ks: seq<nat>, lo: nat, hi: nat, hi': nat)
    requires Within(ks, lo, hi) && hi <= hi'
    ensures Within(ks, lo, hi')
  {
  }

  /** The table lists its ids in increasing order, all among the first `n` ids. */
  lemma {:induction false} KeptKeys(slots: seq<seq<byte>>, start: nat, n: nat, visit: SlotVisitor)
    requires n <= |slots|
    ensures Within(Kept(slots, start, n, visit).keys, start, start + n)
    ensures Ascending(Kept(slots, start, n, visit).keys)
  {
    if n > 0 {
      var m := n - 1;
      var t, u := Kept(slots, start, m, visit), Kept(slots, start, n, visit);
      var key := start + m;
      KeptKeys(slots, start, m, visit);
      match visit(slots[m])
      case Some(v) =>
        assert u == Set(t, key, v);
        KeptMeaning(slots, start, m, visit, key);
        SetMeaning(t, key, v);
        AppendAscending(t.keys, start, key);
      case None =>
        assert u == t;
        WithinWiden(t.keys, start, key, start + n);
    }
  }

  /** The table kept from a chunk's slots holds `k` exactly when the visit of slot `k - start` stores a value, which it holds. */
  lemma KeptSlots(chunk: seq<byte>, start: nat, count: nat, visit: SlotVisitor, k: nat)
    ensures k in Kept(Slots(chunk, count), start, count, visit).rows <==> start <= k < start + count && visit(SlotOf(chunk, k - start)).Some?
    ensures k in Kept(Slots(chunk, count), start, count, visit).rows ==> Kept(Slots(chunk, count), start, count, visit).rows[k] == visit(SlotOf(chunk, k - start)).value
  {
    KeptMeaning(Slots(chunk, count), start, count, visit, k);
  }

  /** The `except Exception: continue` of `read_buffer`: a call that raises stores nothing. */
  function Caught(r: Result<Row>): Option<Row> {
    match r
    case Ok(row) => Some(row)
    case Err(_) => None
  }

  /** One pass with the call to `filename`, which cannot raise: a slot starting with "FILE" is stored with its name and parent. */
  function ReadRecord(slot: seq<byte>): Option<Row> {
    if IsValid(slot) then Caught(Ok(RowOf(slot))) else None
  }

  /** `read_buffer` calling `filename`: the intended chunk table. */
  function ChunkTable(chunk: seq<byte>, start: nat, count: nat): (t: Table)
    ensures Valid(t)
  {
    Kept(Slots(chunk, count), start, count, ReadRecord)
  }

  /**
   * The chunk table holds id `k` exactly when `k` is one of the chunk's ids
   * and its slot starts with "FILE"; the value is that slot with its name and
   * parent.
   */
  lemma ChunkTableMeaning(chunk: seq<byte>, start: nat, count: nat, k: nat)
    ensures k in ChunkTable(chunk, start, count).rows <==> start <= k < start + count && IsValid(SlotOf(chunk, k - start))
    ensures k in ChunkTable(chunk, start, count).rows ==> ChunkTable(chunk, start, count).rows[k] == RowOf(SlotOf(chunk, k - start))
  {
    KeptSlots(chunk, start, count, ReadRecord, k);
  }

  /** The chunk table lists its ids in increasing order, all within the chunk. */
  lemma ChunkTableKeys(chunk: seq<byte>, start: nat, count: nat)
    ensures Within(ChunkTable(chunk, start, count).keys, start, start + count)
    ensures Ascending(ChunkTable(chunk, start, count).keys)
  {
    KeptKeys(Slots(chunk, count), start, count, ReadRecord);
  }

  /**
   * `read_buffer` with the call to `filename`: each of the `count` slots that
   * starts with "FILE" is stored under `start_index + i`. Neither the
   * signature test nor `filename` can raise, so the `except` never fires.
   */
  method ReadBuffer(chunk: seq<byte>, start: nat, count: nat) returns (entries: Table)
    ensures entries == ChunkTable(chunk, start, count)
  {
    ghost var slots := Slots(chunk, count);
    entries := Empty();
    for i := 0 to count
      invariant entries == Kept(slots, start, i, ReadRecord)
    {
      entries := ReadSlot(chunk, start, i, entries, slots);
    }
  }

  /** The body of `read_buffer`'s loop for slot `i`. */
  method ReadSlot(chunk: seq<byte>, start: nat, i: nat, entries: Table, ghost slots: seq<seq<byte>>) returns (entries': Table)
    requires i < |slots| && slots[i] == SlotOf(chunk, i)
    requires entries == Kept(slots, start, i, ReadRecord)
    ensures entries' == Kept(slots, start, i + 1, ReadRecord)
  {
    var offset := EntrySize * i;
    var entryData := Slice(chunk, offset, offset + EntrySize);
    assert entryData == slots[i];
    var entry := MftEntry(entryData, DefaultClusterSize);
    entries' := entries;
    if IsValid(entry.data) {
      var name, parent := Filename(entry.data);
      assert ReadRecord(slots[i]) == Some(Row(name, parent, entryData));
      entries' := Set(entries, start + i, Row(name, parent, entryData));
    } else {
      assert ReadRecord(slots[i]) == None;
    }
  }

  /** `entry.get_filename()` as `read_buffer` calls it: `MFTEntry` has no such method, so it raises. */
  function GetFilenameAsCalled(slot: seq<byte>): Result<Row> {
    Err(AttributeError)
  }

  /** One pass as written: a slot starting with "FILE" raises at the call, and the `except` skips it. */
  function ReadRecordAsWritten(slot: seq<byte>): Option<Row> {
    if IsValid(slot) then Caught(GetFilenameAsCalled(slot)) else None
  }

  /** The table `read_buffer` builds as written. */
  function ChunkTableAsWritten(chunk: seq<byte>, start: nat, count: nat): (t: Table)
    ensures Valid(t)
  {
    Kept(Slots(chunk, count), start, count, ReadRecordAsWritten)
  }

  /** As written, `read_buffer` returns an empty table for every chunk. */
  lemma AsWrittenKeepsNothing(chunk: seq<byte>, start: nat, count: nat)
    ensures ChunkTableAsWritten(chunk, start, count) == Empty()
  {
    var t := ChunkTableAsWritten(chunk, start, count);
    forall k | k in t.rows
      ensures false
    {
      KeptMeaning(Slots(chunk, count), start, count, ReadRecordAsWritten, k);
    }
    if |t.keys| > 0 {
      assert t.keys[0] in t.rows;
    }
  }

  /** A chunk whose first slot starts with "FILE": the record is kept by the intended code and lost as written. */
  lemma AsWrittenLosesValidRecord(chunk: seq<byte>, start: nat)
    requires |chunk| >= 4 && chunk[..4] == Magic
    ensures start in ChunkTable(chunk, start, 1).rows
    ensures start !in ChunkTableAsWritten(chunk, start, 1).rows
  {
    ChunkTableMeaning(chunk, start, 1, start);
    AsWrittenKeepsNothing(chunk, start, 1);
    assert SlotOf(chunk, 0)[..4] == chunk[..4];
  }

  // -------------------------------------------------- the chunk partition

  /** One chunk of the id space: its first id and how many ids it has. */
  datatype Chunk = Chunk(start: nat, count: nat)

  function ChunkCount(total: nat): nat {
    (total + ChunkSize - 1) / ChunkSize
  }

  /** Chunk `j`: it starts at `5000 * j` and has `min(5000, total - start)` ids. */
  function ChunkAt(total: nat, j: nat): (c: Chunk)
    requires j < ChunkCount(total)
    ensures 0 < c.count <= ChunkSize && c.start + c.count <= total
  {
    Chunk(ChunkSize * j, Min(ChunkSize, total - ChunkSize * j))
  }

  /** `[(i, min(CHUNK_SIZE, total - i)) for i in range(0, total, CHUNK_SIZE)]`. */
  function ChunkList(total: nat): (cs: seq<Chunk>)
    ensures |cs| == ChunkCount(total)
  {
    seq(ChunkCount(total), j requires 0 <= j < ChunkCount(total) => ChunkAt(total, j))
  }

  predicate Holds(c: Chunk, id: nat) {
    c.start <= id < c.start + c.count
  }

  /**
   * Every id below `total` lies in exactly one chunk, the one numbered
   * `id / 5000`, and no chunk holds an id at or past `total`.
   */
  lemma ChunkPartition(total: nat, j: nat, id: nat)
    requires j < ChunkCount(total)
    ensures Holds(ChunkList(total)[j], id) <==> id < total && j == id / ChunkSize
  {
  }

  /** Every id below `total` has a chunk. */
  lemma ChunksCover(total: nat, id: nat)
    requires id < total
    ensures id / ChunkSize < ChunkCount(total) && Holds(ChunkList(total)[id / ChunkSize], id)
  {
    ChunkPartition(total, id / ChunkSize, id);
  }

  /** Two different chunks share no id. */
  lemma ChunksDisjoint(total: nat, i: nat, j: nat, id: nat)
    requires i < ChunkCount(total) && j < ChunkCount(total) && i != j
    ensures !(Holds(ChunkList(total)[i], id) && Holds(ChunkList(total)[j], id))
  {
    ChunkPartition(total, i, id);
    ChunkPartition(total, j, id);
  }

  /** The scan uses 400 chunks of exactly 5000 ids each. */
  lemma ScanChunks(j: nat)
    requires j < ChunkCount(MaxEntries)
    ensures ChunkCount(MaxEntries) == 400
    ensures ChunkList(MaxEntries)[j] == Chunk(5000 * j, 5000)
  {
  }

  // ------------------------------------------------------ reading chunks

  /** `f.seek(base + start*1024)` then `f.read(count*1024)` on the volume image. */
  function ChunkData(image: seq<byte>, base: nat, c: Chunk): seq<byte> {
    var at := base + EntrySize * c.start;
    Slice(image, at, at + EntrySize * c.count)
  }

  /** The 1024 bytes of record `id` in the image, with the MFT at byte `base`. */
  function RecordAt(image: seq<byte>, base: nat, id: nat): seq<byte> {
    var at := base + EntrySize * id;
    Slice(image, at, at + EntrySize)
  }

  /** Slot `i` of a chunk read is record `start + i` of the image. */
  lemma SlotIsRecord(image: seq<byte>, base: nat, c: Chunk, i: nat)
    requires i < c.count
    ensures SlotOf(ChunkData(image, base, c), i) == RecordAt(image, base, c.start + i)
  {
    var at := base + EntrySize * c.start;
    SliceOfSlice(image, at, at + EntrySize * c.count, EntrySize * i, EntrySize * i + EntrySize);
  }

  /** The table `read_buffer` returns for chunk `j` of the scan. */
  function ChunkTables(image: seq<byte>, base: nat): (ts: seq<Table>)
    ensures |ts| == ChunkCount(MaxEntries)
  {
    var cs := ChunkList(MaxEntries);
    seq(|cs|, j requires 0 <= j < |cs| => ChunkTable(ChunkData(image, base, cs[j]), cs[j].start, cs[j].count))
  }

  /** The table read for chunk `c` holds record `k` exactly when `k` is in `c` and starts with "FILE". */
  lemma ChunkReadHolds(image: seq<byte>, base: nat, c: Chunk, k: nat)
    ensures var t := ChunkTable(ChunkData(image, base, c), c.start, c.count);
      && (k in t.rows <==> Holds(c, k) && IsValid(RecordAt(image, base, k)))
      && (k in t.rows ==> t.rows[k] == RowOf(RecordAt(image, base, k)))
  {
    ChunkTableMeaning(ChunkData(image, base, c), c.start, c.count, k);
    if Holds(c, k) {
      SlotIsRecord(image, base, c, k - c.start);
    }
  }

  /** Chunk table `j` holds record `k` exactly when `k` is in chunk `j` and starts with "FILE". */
  lemma ChunkTableHolds(image: seq<byte>, base: nat, j: nat, k: nat)
    requires j < ChunkCount(MaxEntries)
    ensures var c := ChunkList(MaxEntries)[j];
      && (k in ChunkTables(image, base)[j].rows <==> Holds(c, k) && IsValid(RecordAt(image, base, k)))
      && (k in ChunkTables(image, base)[j].rows ==> ChunkTables(image, base)[j].rows[k] == RowOf(RecordAt(image, base, k)))
  {
    var c := ChunkList(MaxEntries)[j];
    assert ChunkTables(image, base)[j] == ChunkTable(ChunkData(image, base, c), c.start, c.count);
    ChunkReadHolds(image, base, c, k);
  }

  lemma ChunkTablesDisjoint(image: seq<byte>, base: nat)
    ensures AllValid(ChunkTables(image, base)) && Disjoint(ChunkTables(image, base))
  {
    var ts := ChunkTables(image, base);
    forall i, j, k | 0 <= i < |ts| && 0 <= j < |ts| && i != j && k in ts[i].rows
      ensures k !in ts[j].rows
    {
      ChunkTableHolds(image, base, i, k);
      ChunkTableHolds(image, base, j, k);
      ChunksDisjoint(MaxEntries, i, j, k);
    }
  }

  // ------------------------------------------------------- the scan table

  /** What `as_completed` yields: each of the `n` submitted chunks exactly once, in some order. */
  predicate CompletionOrder(order: seq<nat>, n: nat) {
    && |order| == n && Distinct(order)
    && (forall i :: 0 <= i < |order| ==> order[i] < n)
    && (forall j :: 0 <= j < n ==> j in order)
  }

  /** One submitted task: seek to the chunk's first record, read the chunk and run `read_buffer` on it. */
  method ReadChunk(image: seq<byte>, base: nat, c: Chunk) returns (entries: Table)
    ensures entries == ChunkTable(ChunkData(image, base, c), c.start, c.count)
  {
    var at := base + EntrySize * c.start;
    var chunkData := Slice(image, at, at + EntrySize * c.count);
    assert chunkData == ChunkData(image, base, c);
    entries := ReadBuffer(chunkData, c.start, c.count);
  }

  /**
   * The table-building part of `scan`: read every chunk and run
   * `read_buffer` on it (the submissions), then `update` the table with the
   * chunk tables in completion order.
   */
  method ScanTable(image: seq<byte>, base: nat, order: seq<nat>) returns (idToEntry: Table)
    requires CompletionOrder(order, ChunkCount(MaxEntries))
    ensures idToEntry == Merged(ChunkTables(image, base), order)
  {
    var results := SubmitChunks(image, base);
    idToEntry := MergeResults(results, order);
  }

  /** The submissions: one `read_buffer` result per chunk, in chunk order. */
  method SubmitChunks(image: seq<byte>, base: nat) returns (results: seq<Table>)
    ensures results == ChunkTables(image, base)
  {
    var chunks := ChunkList(MaxEntries);
    ghost var expected := ChunkTables(image, base);
    results := [];
    for j := 0 to |chunks|
      invariant results == expected[..j]
    {
      var entries := ReadChunk(image, base, chunks[j]);
      assert entries == expected[j];
      PrefixSnoc(expected, j);
      results := results + [entries];
    }
    assert expected[..|chunks|] == expected;
  }

  /** The merge loop: `id_to_entry.update(entries)` for each finished chunk, in completion order. */
  method MergeResults(results: seq<Table>, order: seq<nat>) returns (idToEntry: Table)
    requires AllValid(results) && Indices(order, |results|)
    ensures idToEntry == Merged(results, order)
  {
    ghost var final := Merged(results, order);
    idToEntry := Empty();
    for n := 0 to |order|
      invariant Valid(idToEntry)
      invariant MergeInto(idToEntry, results, order[n..]) == final
    {
      assert order[n..][1..] == order[n + 1..];
      idToEntry := Update(idToEntry, results[order[n]]);
    }
  }

  /**
   * The scan table, whatever the completion order, holds record `k` exactly
   * when `k` is below 2,000,000 and its 1024 bytes in the image start with
   * "FILE", and maps it to those bytes with their name and parent.
   */
  lemma ScanTableMeaning(image: seq<byte>, base: nat, order: seq<nat>, k: nat)
    requires CompletionOrder(order, ChunkCount(MaxEntries))
    ensures var t := Merged(ChunkTables(image, base), order);
      && (k in t.rows <==> k < MaxEntries && IsValid(RecordAt(image, base, k)))
      && (k in t.rows ==> t.rows[k] == RowOf(RecordAt(image, base, k)))
  {
    var ts := ChunkTables(image, base);
    ChunkTablesDisjoint(image, base);
    MergedLookup(ts, order, k);
    if k < MaxEntries {
      var j := k / ChunkSize;
      ChunksCover(MaxEntries, k);
      ChunkTableHolds(image, base, j, k);
      assert j in order;
      var i :| 0 <= i < |order| && order[i] == j;
    }
    forall i | 0 <= i < |order| && k in ts[order[i]].rows
      ensures k < MaxEntries && IsValid(RecordAt(image, base, k)) && ts[order[i]].rows[k] == RowOf(RecordAt(image, base, k))
    {
      ChunkTableHolds(image, base, order[i], k);
    }
  }

  /** Any two completion orders give the same table contents. */
  lemma ScanTableOrderIndependent(image: seq<byte>, base: nat, order1: seq<nat>, order2: seq<nat>)
    requires CompletionOrder(order1, ChunkCount(MaxEntries)) && CompletionOrder(order2, ChunkCount(MaxEntries))
    ensures Merged(ChunkTables(image, base), order1).rows == Merged(ChunkTables(image, base), order2).rows
  {
    ChunkTablesDisjoint(image, base);
    MergeOrderIndependent(ChunkTables(image, base), order1, order2);
  }

  /** The iteration order of the scan table: chunk by chunk in completion order, ascending ids within a chunk. */
  lemma ScanTableKeys(image: seq<byte>, base: nat, order: seq<nat>)
    requires CompletionOrder(order, ChunkCount(MaxEntries))
    ensures Merged(ChunkTables(image, base), order).keys == KeysInOrder(ChunkTables(image, base), order)
  {
    ChunkTablesDisjoint(image, base);
    MergedKeys(ChunkTables(image, base), order);
  }

  /**
   * Records in different chunks: when record `x`'s chunk completes before
   * record `y`'s, `x` comes before `y` in the scan table's iteration order.
   */
  lemma ScanKeysFollowCompletion(image: seq<byte>, base: nat, order: seq<nat>, p: nat, q: nat, x: nat, y: nat)
    requires CompletionOrder(order, ChunkCount(MaxEntries)) && p < q < |order|
    requires x < MaxEntries && IsValid(RecordAt(image, base, x)) && order[p] == x / ChunkSize
    requires y < MaxEntries && IsValid(RecordAt(image, base, y)) && order[q] == y / ChunkSize
    ensures var ks := Merged(ChunkTables(image, base), order).keys;
      exists i :: 0 <= i < |ks| && ks[i] == x && y in ks[i + 1..]
  {
    var ts := ChunkTables(image, base);
    ChunksCover(MaxEntries, x);
    ChunksCover(MaxEntries, y);
    ChunkTableHolds(image, base, order[p], x);
    ChunkTableHolds(image, base, order[q], y);
    ChunkTablesDisjoint(image, base);
    assert Valid(ts[order[p]]) && Valid(ts[order[q]]);
    ScanTableKeys(image, base, order);
    KeysInOrderPrecede(ts, order, p, q, x, y);
  }

  /** The tables `read_buffer` returns as written, one per chunk of the scan. */
  function ChunkTablesAsWritten(image: seq<byte>, base: nat): (ts: seq<Table>)
    ensures |ts| == ChunkCount(MaxEntries) && AllValid(ts)
  {
    var cs := ChunkList(MaxEntries);
    seq(|cs|, j requires 0 <= j < |cs| => ChunkTableAsWritten(ChunkData(image, base, cs[j]), cs[j].start, cs[j].count))
  }

  /** As written, the scan table is empty whatever the image and the completion order. */
  lemma AsWrittenScanEmpty(image: seq<byte>, base: nat, order: seq<nat>)
    requires CompletionOrder(order, ChunkCount(MaxEntries))
    ensures Merged(ChunkTablesAsWritten(image, base), order) == Empty()
  {
    var ts := ChunkTablesAsWritten(image, base);
    var cs := ChunkList(MaxEntries);
    forall j | 0 <= j < |ts|
      ensures ts[j] == Empty()
    {
      AsWrittenKeepsNothing(ChunkData(image, base, cs[j]), cs[j].start, cs[j].count);
    }
    MergeEmpties(Empty(), ts, order);
  }
}
