/**
 * `scan` in src/worker.py: normalise the target path, build the record table
 * from the raw MFT, find the first record (in the table's iteration order)
 * whose lower-cased path equals the target, and answer with its entry, or
 * with its collected subtree when it is a directory.
 */
module Lookup {
  import opened Bytes
  import opened Record
  import opened Tables
  import opened ChunkScan
  import opened Paths

  // ------------------------------------------------------- normalisation

  predicate IsUpper(c: char) { 'A' <= c <= 'Z' }

  /** `str.lower()` on one character, for the ASCII letters. */
  function LowerChar(c: char): (r: char)
    ensures !IsUpper(r)
    ensures IsUpper(c) ==> r as int == c as int + 32
    ensures !IsUpper(c) ==> r == c
  {
    if IsUpper(c) then (c as int + 32) as char else c
  }

  /** `s.lower()`: same length, each character lower-cased, so no upper-case letter left. */
  function Lower(s: string): (r: string)
    ensures |r| == |s|
    ensures forall i :: 0 <= i < |s| ==> r[i] == LowerChar(s[i])
    ensures forall i :: 0 <= i < |r| ==> !IsUpper(r[i])
  {
    seq(|s|, i requires 0 <= i < |s| => LowerChar(s[i]))
  }

  /** Lower-casing twice is lower-casing once. */
  lemma LowerIdempotent(s: string)
    ensures Lower(Lower(s)) == Lower(s)
  {
    var once := Lower(s);
    forall i | 0 <= i < |once|
      ensures Lower(once)[i] == once[i]
    {
      assert !IsUpper(once[i]);
    }
  }

  /** `s.replace('\\', '/')`: same length, each backslash becomes '/', every other character kept. */
  function ReplaceBackslash(s: string): (r: string)
    ensures |r| == |s|
    ensures forall i :: 0 <= i < |s| && s[i] == '\\' ==> r[i] == '/'
    ensures forall i :: 0 <= i < |r| ==> r[i] != '\\'
    ensures forall i :: 0 <= i < |r| && s[i] != '\\' ==> r[i] == s[i]
  {
    seq(|s|, i requires 0 <= i < |s| => if s[i] == '\\' then '/' else s[i])
  }

  /**
   * `re.sub(r'^[a-z]:', '', s)`: drops a leading drive letter and colon,
   * once, since the pattern is anchored at the start of the string.
   */
  function StripDrive(s: string): (r: string)
    ensures |s| >= 2 && 'a' <= s[0] <= 'z' && s[1] == ':' ==> r == s[2..]
    ensures !(|s| >= 2 && 'a' <= s[0] <= 'z' && s[1] == ':') ==> r == s
  {
    if |s| >= 2 && 'a' <= s[0] <= 'z' && s[1] == ':' then s[2..] else s
  }

  /** Length of the drive prefix `normalise` drops: 2 for a letter and a colon, else 0. */
  function DriveLength(absolute: string): nat {
    if |absolute| >= 2 && IsLetter(absolute[0]) && absolute[1] == ':' then 2 else 0
  }

  predicate IsLetter(c: char) { 'a' <= c <= 'z' || 'A' <= c <= 'Z' }

  /**
   * The normalised target, from the result of `os.path.abspath`: forward
   * slashes only, lower case, drive letter removed. Character `i` of the
   * target is the lower-cased, slash-converted character `i + d` of the
   * input, where `d` is the length of the drive prefix.
   */
  function Normalise(absolute: string): (target: string)
    ensures |target| == |absolute| - DriveLength(absolute)
    ensures forall i :: 0 <= i < |target| ==>
      target[i] == LowerChar(if absolute[i + DriveLength(absolute)] == '\\' then '/' else absolute[i + DriveLength(absolute)])
    ensures forall i :: 0 <= i < |target| ==> target[i] != '\\' && !IsUpper(target[i])
  {
    var lowered := Lower(ReplaceBackslash(absolute));
    assert forall i :: 0 <= i < |lowered| ==> lowered[i] != '\\';
    StripDrive(lowered)
  }

  /** A Windows path: `C:\Users\Bob` becomes `/users/bob`. */
  lemma NormaliseExample()
    ensures Normalise("C:\\Users\\Bob") == "/users/bob"
  {
    var slashed := ReplaceBackslash("C:\\Users\\Bob");
    assert slashed == "C:/Users/Bob";
    var lowered := Lower(slashed);
    assert lowered == "c:/users/bob";
    assert Normalise("C:\\Users\\Bob") == StripDrive(lowered) == lowered[2..];
  }

  /** Only the first drive prefix goes, so normalising is not idempotent: `c:d:x` gives `d:x`, which gives `x`. */
  lemma NormaliseNotIdempotent()
    ensures Normalise("c:d:x") == "d:x" && Normalise(Normalise("c:d:x")) == "x"
  {
    assert ReplaceBackslash("c:d:x") == "c:d:x";
    assert Lower("c:d:x") == "c:d:x";
    assert ReplaceBackslash("d:x") == "d:x";
    assert Lower("d:x") == "d:x";
  }

  // ------------------------------------------------------------ the search

  /** Record `id`'s lower-cased `build` path is the target. */
  ghost predicate Matches(t: Table, target: string, id: nat) {
    BuildStops(t, id) && Lower(BuildPath(t, id)) == target
  }

  /** The search loop, from position `i` of the iteration order, calls `build` only where it returns. */
  ghost predicate SearchStops(t: Table, target: string, i: nat)
    requires Valid(t)
    decreases |t.keys| - i
  {
    i >= |t.keys| || (BuildStops(t, t.keys[i]) && (Lower(BuildPath(t, t.keys[i])) == target || SearchStops(t, target, i + 1)))
  }

  /** When every record's parent chain reaches a root, the search terminates whatever the target. */
  lemma {:induction false} SearchStopsWhenChainsEnd(t: Table, target: string, i: nat)
    requires Valid(t) && forall k :: k in t.rows ==> BuildStops(t, k)
    ensures SearchStops(t, target, i)
    decreases |t.keys| - i
  {
    if i < |t.keys| {
      SearchStopsWhenChainsEnd(t, target, i + 1);
    }
  }

  /** The position, in iteration order from `i` on, of the first matching record. */
  ghost function FirstMatch(t: Table, target: string, i: nat): (r: Option<nat>)
    requires Valid(t) && SearchStops(t, target, i)
    ensures r.Some? ==> i <= r.value < |t.keys| && Matches(t, target, t.keys[r.value])
    ensures r.Some? ==> forall j :: i <= j < r.value ==> !Matches(t, target, t.keys[j])
    ensures r.None? ==> forall j :: i <= j < |t.keys| ==> !Matches(t, target, t.keys[j])
    decreases |t.keys| - i
  {
    if i >= |t.keys| then None
    else if Lower(BuildPath(t, t.keys[i])) == target then Some(i)
    else FirstMatch(t, target, i + 1)
  }

  /** `target_id` after the search loop. */
  ghost function TargetId(t: Table, target: string): (r: Option<nat>)
    requires Valid(t) && SearchStops(t, target, 0)
    ensures r.Some? ==> r.value in t.rows
  {
    match FirstMatch(t, target, 0)
    case None => None
    case Some(j) => Some(t.keys[j])
  }

  /**
   * The search loop of `scan`: the first record in iteration order whose
   * lower-cased path is the target. Every table row holds raw bytes, so the
   * skip of rows without them never fires.
   */
  method FindTarget(idToEntry: Table, targetPath: string) returns (targetId: Option<nat>)
    requires Valid(idToEntry) && SearchStops(idToEntry, targetPath, 0)
    ensures targetId == TargetId(idToEntry, targetPath)
  {
    var i := 0;
    while i < |idToEntry.keys|
      invariant i <= |idToEntry.keys|
      invariant SearchStops(idToEntry, targetPath, i)
      invariant FirstMatch(idToEntry, targetPath, 0) == FirstMatch(idToEntry, targetPath, i)
    {
      var idx := idToEntry.keys[i];
      var fullPath := Build(idx, idToEntry);
      if Lower(fullPath) == targetPath {
        return Some(idx);
      }
      i := i + 1;
    }
    return None;
  }

  /** The search finds a record exactly when some record of the table matches. */
  lemma FoundIffSomeMatch(t: Table, target: string)
    requires Valid(t) && SearchStops(t, target, 0)
    ensures TargetId(t, target).Some? <==> exists k :: k in t.rows && Matches(t, target, k)
  {
    if k :| k in t.rows && Matches(t, target, k) {
      var j :| 0 <= j < |t.keys| && t.keys[j] == k;
    }
  }

  /** When exactly one record matches, the search finds it, whatever the iteration order. */
  lemma UniqueMatchFound(t: Table, target: string, id: nat)
    requires Valid(t) && SearchStops(t, target, 0)
    requires id in t.rows && Matches(t, target, id)
    requires forall k :: k in t.rows && Matches(t, target, k) ==> k == id
    ensures TargetId(t, target) == Some(id)
  {
    var j :| 0 <= j < |t.keys| && t.keys[j] == id;
  }

  /**
   * Two records in different chunks, 1 and 5001, whose paths are both "/"
   * (each its own parent): which one the search finds depends on the
   * iteration order alone. The two orders are those of the scan table when
   * chunk 0 completes first and when chunk 1 does (ScanKeysFollowCompletion).
   */
  lemma FirstMatchDependsOnOrder(raw: seq<byte>)
    ensures var rows := map[1 := Row("a", Some(1), raw), 5001 := Row("b", Some(5001), raw)];
      && 1 / ChunkSize != 5001 / ChunkSize
      && Valid(Table([1, 5001], rows)) && SearchStops(Table([1, 5001], rows), "/", 0)
      && Valid(Table([5001, 1], rows)) && SearchStops(Table([5001, 1], rows), "/", 0)
      && TargetId(Table([1, 5001], rows), "/") == Some(1)
      && TargetId(Table([5001, 1], rows), "/") == Some(5001)
  {
    var rows := map[1 := Row("a", Some(1), raw), 5001 := Row("b", Some(5001), raw)];
    var t1, t2 := Table([1, 5001], rows), Table([5001, 1], rows);
    BuildAtRoot(t1, 1);
    BuildAtRoot(t2, 5001);
    assert Lower("/") == "/";
  }

  // ------------------------------------------------------------ the answer

  /** What `scan` returns: the entry of a file, or the collected subtree of a directory. */
  datatype Found = FileFound(entry: MftEntry) | DirectoryFound(children: seq<Item>)

  /** The search terminates, and so does `collect` when the found record is a directory. */
  ghost predicate LookupStops(t: Table, target: string, fuel: nat) {
    && Valid(t) && SearchStops(t, target, 0)
    && (TargetId(t, target).Some? && IsDirectory(t.rows[TargetId(t, target).value].raw) ==>
          CollectStops(t, TargetId(t, target).value, fuel))
  }

  /** The answer for the table `t` and the normalised target. */
  ghost function Outcome(t: Table, target: string, clusterSize: nat, fuel: nat): Result<Found>
    requires LookupStops(t, target, fuel)
  {
    match TargetId(t, target)
    case None => Err(FileNotFoundError)
    case Some(id) =>
      var entry := MftEntry(t.rows[id].raw, clusterSize);
      if IsDirectory(entry.data) then Ok(DirectoryFound(Collected(t, id, clusterSize, fuel))) else Ok(FileFound(entry))
  }

  /**
   * The lookup fails with `FileNotFoundError` exactly when no record's path
   * is the target; otherwise it answers for a matching record that no
   * earlier record in iteration order matches: with its entry for a file,
   * with its collected children for a directory.
   */
  lemma OutcomeMeaning(t: Table, target: string, clusterSize: nat, fuel: nat)
    requires LookupStops(t, target, fuel)
    ensures Outcome(t, target, clusterSize, fuel) == Err(FileNotFoundError) <==> forall k :: k in t.rows ==> !Matches(t, target, k)
    ensures Outcome(t, target, clusterSize, fuel).Err? ==> Outcome(t, target, clusterSize, fuel).fault == FileNotFoundError
    ensures Outcome(t, target, clusterSize, fuel).Ok? ==> exists j ::
      && 0 <= j < |t.keys| && Matches(t, target, t.keys[j])
      && (forall i :: 0 <= i < j ==> !Matches(t, target, t.keys[i]))
      && TargetId(t, target) == Some(t.keys[j])
      && Outcome(t, target, clusterSize, fuel).value ==
           if IsDirectory(t.rows[t.keys[j]].raw) then DirectoryFound(Collected(t, t.keys[j], clusterSize, fuel))
           else FileFound(MftEntry(t.rows[t.keys[j]].raw, clusterSize))
  {
    FoundIffSomeMatch(t, target);
    if FirstMatch(t, target, 0).Some? {
      var j := FirstMatch(t, target, 0).value;
      assert TargetId(t, target) == Some(t.keys[j]);
    }
  }

  /** On a table with no records, every lookup fails with `FileNotFoundError`. */
  lemma EmptyTableNotFound(t: Table, target: string, clusterSize: nat, fuel: nat)
    requires Valid(t) && t.rows == map[]
    ensures LookupStops(t, target, fuel)
    ensures Outcome(t, target, clusterSize, fuel) == Err(FileNotFoundError)
  {
  }

  /**
   * `scan` as written, with `read_buffer` calling the missing `get_filename`:
   * the table is empty, so every target fails with `FileNotFoundError`.
   */
  lemma AsWrittenScanNotFound(image: seq<byte>, base: nat, order: seq<nat>, target: string, clusterSize: nat, fuel: nat)
    requires CompletionOrder(order, ChunkCount(MaxEntries))
    ensures LookupStops(Merged(ChunkTablesAsWritten(image, base), order), target, fuel)
    ensures Outcome(Merged(ChunkTablesAsWritten(image, base), order), target, clusterSize, fuel) == Err(FileNotFoundError)
  {
    AsWrittenScanEmpty(image, base, order);
    EmptyTableNotFound(Empty(), target, clusterSize, fuel);
  }

  /** The lookup part of `scan`, on the built table: search, then answer. */
  method Find(idToEntry: Table, targetPath: string, clusterSize: nat, ghost fuel: nat) returns (r: Result<Found>)
    requires LookupStops(idToEntry, targetPath, fuel)
    ensures r == Outcome(idToEntry, targetPath, clusterSize, fuel)
  {
    var targetId := FindTarget(idToEntry, targetPath);
    if targetId.None? {
      return Err(FileNotFoundError);
    }
    var entryData := idToEntry.rows[targetId.value].raw;
    var entry := MftEntry(entryData, clusterSize);
    if IsDirectory(entry.data) {
      var children := Collect(targetId.value, idToEntry, clusterSize, fuel);
      return Ok(DirectoryFound(children));
    }
    return Ok(FileFound(entry));
  }

  /** The table `scan` builds for an image whose MFT starts at cluster `mftCluster`. */
  function ScanOf(image: seq<byte>, clusterSize: nat, mftCluster: nat, order: seq<nat>): (t: Table)
    requires CompletionOrder(order, ChunkCount(MaxEntries))
    ensures Valid(t)
  {
    NatProduct(mftCluster, clusterSize);
    ChunkTablesDisjoint(image, mftCluster * clusterSize);
    Merged(ChunkTables(image, mftCluster * clusterSize), order)
  }

  /**
   * `scan(image_path, cluster_size, mft_cluster, target_path)`, with the
   * image's bytes, the `abspath` of the target and the chunks' completion
   * order as parameters.
   */
  method Scan(image: seq<byte>, clusterSize: nat, mftCluster: nat, absoluteTarget: string, order: seq<nat>, ghost fuel: nat)
    returns (r: Result<Found>)
    requires CompletionOrder(order, ChunkCount(MaxEntries))
    requires LookupStops(ScanOf(image, clusterSize, mftCluster, order), Normalise(absoluteTarget), fuel)
    ensures r == Outcome(ScanOf(image, clusterSize, mftCluster, order), Normalise(absoluteTarget), clusterSize, fuel)
  {
    var targetPath := ReplaceBackslash(absoluteTarget);
    targetPath := Lower(targetPath);
    targetPath := StripDrive(targetPath);
    assert targetPath == Normalise(absoluteTarget);
    NatProduct(mftCluster, clusterSize);
    var baseOffset := mftCluster * clusterSize;
    var idToEntry := ScanTable(image, baseOffset, order);
    r := Find(idToEntry, targetPath, clusterSize, fuel);
  }
}
