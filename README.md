# NTFS MFT raw copy, modelled in Dafny

This project models the core of a raw-copy tool for NTFS volumes. The tool
reads the Master File Table (MFT) byte by byte, without an OS file-system
driver, and then rebuilds paths and directory trees from the records. The
model covers two source files:

- **`src/helper.py`**: record decoding.
  - `BootSector.read` decodes the volume geometry.
  - `MFTEntry.is_valid`, `is_deleted` and `is_directory` test a record's signature and flags.
  - `MFTEntry.filename` walks the `$FILE_NAME` attributes to choose a name and a parent reference.
  - `MFTEntry.raw_data` walks the `$DATA` attribute. It decodes the run list and reads the runs from the device.
- **`src/worker.py`**: table building and lookup.
  - `read_buffer` builds the record table of one 5000-record chunk.
  - `scan` splits record ids 0 to 1,999,999 into chunks and merges the chunk tables as the worker threads finish.
  - `build` rebuilds a record's path from its parent references.
  - `collect` lists the subtree under a directory.
  - The rest of `scan` normalises the target path and returns the first record whose lower-cased path matches it.

One Dafny module per concern, one file each:

| file | module | models |
|---|---|---|
| `bytes.dfy` | `Bytes` | bytes and Python's clamping slices; `int.from_bytes` little-endian, unsigned and signed; the exceptions that change behaviour |
| `boot.dfy` | `Boot` | `BootSector`: a class whose `Read` assigns its four fields |
| `record.dfy` | `Record` | the signature and flag predicates; UTF-16LE decoding with replacement; `filename` as a loop over attribute headers, plus an independent description of what it chooses |
| `dataruns.dfy` | `DataRuns` | `raw_data`: the attribute loop, the run-list decoder and the run reads against a device image |
| `tables.dfy` | `Tables` | a Python dict: its contents plus its insertion order, with `d[k] = v`, `update` and the merge of chunk tables |
| `chunkscan.dfy` | `ChunkScan` | `read_buffer`, the chunk list, the chunk reads and the merge in completion order |
| `paths.dfy` | `Paths` | `build` and `collect` |
| `lookup.dfy` | `Lookup` | target normalisation, the first-match search and the answer of `scan` |

Python behaviour that the model spells out:

- **Device reads.** The volume is a byte sequence. A read past its end returns what is there. A negative `seek` raises.
- **Slices and indexing.** Slices clamp. Single-byte indexing past the end raises `IndexError`.
- **Dicts.** A dict keeps its keys in insertion order, which `collect` and the search depend on.
- **Threads.** The order in which `as_completed` hands back the chunks is a parameter: any permutation of the chunk numbers.
- **Termination.** `build` loops forever on a parent cycle. `collect` recurses once per directory level with no depth cap, so on a self-parented directory CPython raises `RecursionError`, which escapes `scan`. The methods require that the walk stops within a ghost step or depth bound, and lemmas show that such cycles violate it. The interpreter's recursion limit itself is not modelled (see Left out).

In these places the code behaves differently from what such a tool is usually taken to do; the model follows the code:

- **No depth cap in `build`.** `build` has no depth cap (src/worker.py:29-34). A two-record cycle never ends (`Paths.TwoCycleNeverStops`).
- **No deleted-file fallback.** The lookup compares paths only (src/worker.py:81-92). Deleted records are in the table like any other record whose signature is "FILE".
- **Merge order does not matter only for the contents.** The merged contents do not depend on the completion order. The iteration order does, so the record found among duplicate paths can differ between runs (`ChunkScan.ScanKeysFollowCompletion` orders records of different chunks by completion; `Lookup.FirstMatchDependsOnOrder` shows the effect on records 1 and 5001).
- **`read_buffer` as written keeps nothing.** It calls a method the record class does not have; see Findings.

## Model

| member | source | states |
|---|---|---|
| Bytes.FieldIsLE | src/helper.py:13 | the field reader is `int.from_bytes(data[off:off+w], 'little')` of the clamped slice |
| Bytes.SignedRoundTrip | src/helper.py:113 | signed little-endian decoding inverts two's-complement encoding for every width and in-range value |
| Bytes.LESigned | src/helper.py:113 | the signed value lies in the two's-complement range of the width and is negative exactly when the top bit of the last byte is set |
| Bytes.LEOfEncode | src/helper.py:108 | unsigned little-endian decoding inverts encoding |
| Bytes.EncodeOfLE | src/helper.py:108 | encoding the decoded value gives back the bytes |
| Bytes.SliceOfSlice | src/worker.py:18 | a slot of a chunk read is the same slice of the volume |
| Boot.DecodeBoot | src/helper.py:12-16 | raises `IndexError` exactly when the sector has at most 13 bytes; otherwise `bps` is the u16 at 11-12, `spc` byte 13, `cls = bps*spc`, and `mft` the little-endian value of the clamped slice 48-56 (0 on a short sector), each within its width |
| Boot.ExampleGeometry | src/helper.py:13-16 | `bps` 0x0200, `spc` 8 and MFT cluster 100 give cluster size 4096 and MFT byte offset 409600 |
| Boot.BootSector.constructor | src/helper.py:4-8 | all four fields start at 0 |
| Boot.BootSector.Read | src/helper.py:10-17 | returns the decoding of the first 512 bytes and stores it in the fields; on a short sector raises with only `bps` assigned |
| Record.IsValid | src/helper.py:24 | true exactly when the record's first four bytes are "FILE" |
| Record.IsDeleted | src/helper.py:26 | true exactly when bit 0 of byte 22 is clear, whatever the other bits; true when the flags are missing |
| Record.IsDirectory | src/helper.py:28 | true exactly when bit 1 of byte 22 is set, whatever the other bits; false when the flags are missing |
| Record.FlagsLowByte | src/helper.py:26-28 | bits 0 and 1 of the u16 flags are those of byte 22 |
| Record.Utf16LeDecode | src/helper.py:47 | decoding is empty exactly for no bytes and yields at most one character per two bytes |
| Record.AttrAt | src/helper.py:38-46 | the parent reference is masked below 2^48; the name fields are readable exactly when byte +89 exists |
| Record.CursorsAdvance | src/helper.py:36-63 | the loop starts at the first attribute, stays below 1024, moves on by a non-zero length past every attribute that does not end it, and stops at an end marker, zero length or the record end |
| Record.SettleStep | src/helper.py:49-55 | visiting a `$FILE_NAME` hands its name and parent to the loop state |
| Record.FileNamesAtCursors | src/helper.py:36-40 | the `$FILE_NAME` attributes the walk meets are those at its cursor positions |
| Record.WalkSettles | src/helper.py:36-66 | the loop's final state is what its `$FILE_NAME` attributes settle in turn: the first non-empty long name is kept, each short name overwrites the last, and each sets the parent |
| Record.WalkMeaning | src/helper.py:36-68 | the loop from a fresh state ends with the chosen name and parent of the attributes it visits |
| Record.ParsedNameMeaning | src/helper.py:30-68 | `filename` returns the first non-empty long name (namespace 0 or 3), else a non-empty last short name (namespace 1), else "Unknown"; the parent is the last `$FILE_NAME`'s masked reference, or None without one |
| Record.ReadFileName | src/helper.py:40-55 | the `$FILE_NAME` branch reads when byte +89 exists and updates the three variables as the loop does |
| Record.Filename | src/helper.py:30-68 | the loop, which leaves at an end marker, a zero length or an unreadable name and otherwise moves on by `attr_len`, returns the parsed name and parent whose meaning `Record.ParsedNameMeaning` gives |
| DataRuns.RunAt | src/helper.py:95-114 | a header past the record raises; a zero header or a zero nibble stops; otherwise the field widths are the two nibbles and the length fits its width |
| DataRuns.RunRoundTrip | src/helper.py:100-114 | a run encoded with any admissible widths decodes back to itself: the unsigned length of low-nibble width, then the signed delta of high-nibble width, then the next header |
| DataRuns.RunFromParts | src/helper.py:100-114 | a header, a length field and a delta field laid out in sequence decode to their run |
| DataRuns.ExampleRunList | src/helper.py:95-116 | deltas +10 then -4 put the runs at clusters 10 and 6, and the zero header ends the list |
| DataRuns.RunWalkDecodesThenReads | src/helper.py:95-122 | the interleaved loop equals decoding the whole run list and then reading its runs in order |
| DataRuns.ReadRunsCompletes | src/helper.py:116-122 | a completed read is exactly `data_size` bytes, the prefix of all the runs' reads; it completes whenever every seek is valid and the reads reach the size |
| DataRuns.ReadRunsFallsShort | src/helper.py:116-122 | the run reads raise only `SeekError` on a negative position, and fall through only when every seek is valid and the reads stay short |
| DataRuns.SeeksOkCons | src/helper.py:116-118 | every seek is valid exactly when the first run's is and the rest are from its cluster |
| DataRuns.DecodeRun | src/helper.py:96-114 | reading a header byte by byte gives the decoded run |
| DataRuns.FollowRuns | src/helper.py:90-122 | the run loop returns the run walk, which `DataRuns.RunWalkDecodesThenReads` equates with decoding the whole run list and reading each run in order |
| DataRuns.ResidentRoundTrip | src/helper.py:76-82 | a record whose first attribute is a resident `$DATA` holding B returns exactly B, the slice at the content offset (+20) of the content length (+16) |
| DataRuns.NonResidentReads | src/helper.py:84-122 | a non-resident `$DATA` returns the first `data_size` bytes of its runs' reads, raises on a negative seek, or (reads short) raises or lets the walk go on |
| DataRuns.ReadDataAttr | src/helper.py:76-122 | the `$DATA` branch returns, raises or falls through as the walk says |
| DataRuns.DataWalkStep | src/helper.py:74-130 | one pass of the attribute loop ends the walk with its result or moves the cursor forward |
| DataRuns.RawData | src/helper.py:70-132 | the attribute loop returns the `$DATA` walk's result: what the first `$DATA` decides, b'' at an end marker, a zero length or the record end, `IndexError` at an unreadable header; `NonResidentReads` and `ResidentRoundTrip` give the two `$DATA` cases |
| Tables.SetEachRows | src/worker.py:22-74 | setting keys one by one with `d[k] = v` gives the old contents overridden by the new values, each key holding its last value |
| Tables.SetEachKeys | src/worker.py:74 | setting new distinct keys appends them in order |
| Tables.UpdateRows | src/worker.py:74 | after `update` every key of the argument holds its value and every other key keeps its own |
| Tables.UpdateKeysDisjoint | src/worker.py:74 | updating with a table that shares no key appends its keys in its order |
| Tables.MergeIntoRows | src/worker.py:71-74 | merging key-disjoint tables keeps every earlier key and adds each table's keys with their values |
| Tables.MergedLookup | src/worker.py:71-74 | the merge holds a key exactly when one of the merged tables does, with that table's value |
| Tables.MergedSubsumes | src/worker.py:71-74 | what one completion order merges, any order over the same tables merges with the same value |
| Tables.MergeOrderIndependent | src/worker.py:71-74 | the merged contents are the same for any two completion orders |
| Tables.MergeIntoKeys | src/worker.py:71-74 | the merged order appends each table's order in completion order |
| Tables.MergedKeys | src/worker.py:71-74 | the merged table iterates chunk by chunk in completion order |
| Tables.KeysInOrderPrecede | src/worker.py:73-74 | a key of a table merged earlier is listed before a key of a table merged later |
| ChunkScan.KeptMeaning | src/worker.py:15-24 | the table built after `n` slots holds id `start+i` exactly when the pass over slot `i` stores a value, and holds that value |
| ChunkScan.KeptKeys | src/worker.py:14-22 | the table lists its ids increasing, all among the slots read |
| ChunkScan.ChunkTableMeaning | src/worker.py:14-25 | `read_buffer` holds id `k` exactly when `k` is in `[start, start+count)` and its 1024-byte slot starts with "FILE"; the value is the slot with its name and parent |
| ChunkScan.ChunkTableKeys | src/worker.py:14-25 | `read_buffer`'s table lists its ids in increasing order, all within the chunk |
| ChunkScan.ReadBuffer | src/worker.py:13-25 | the loop, with `filename` called, builds the chunk table |
| ChunkScan.ReadSlot | src/worker.py:16-22 | one pass stores slot `i` under `start+i` exactly when it starts with "FILE" |
| ChunkScan.AsWrittenKeepsNothing | src/worker.py:20-24 | as written, every chunk's table is empty |
| ChunkScan.AsWrittenLosesValidRecord | src/worker.py:20-24 | a record starting with "FILE" is kept by the corrected loop and lost as written |
| ChunkScan.AsWrittenScanEmpty | src/worker.py:61-74 | as written, the merged scan table is empty for every image and completion order |
| ChunkScan.ChunkAt | src/worker.py:61 | every chunk is non-empty, at most 5000 ids, and within the id range |
| ChunkScan.ChunkPartition | src/worker.py:61 | chunk `j` holds `id` exactly when `id` is below the total and `id / 5000 == j` |
| ChunkScan.ChunksCover | src/worker.py:61 | every id below the total lies in a chunk |
| ChunkScan.ChunksDisjoint | src/worker.py:61 | no id lies in two chunks |
| ChunkScan.ScanChunks | src/worker.py:60-61 | the scan uses 400 chunks, chunk `j` being ids `5000*j` to `5000*j + 4999` |
| ChunkScan.SlotIsRecord | src/worker.py:59-67 | slot `i` of chunk `c`'s read is record `c.start + i` at `base + 1024*id` in the image |
| ChunkScan.ChunkTableHolds | src/worker.py:59-67 | chunk table `j` holds record `k` exactly when `k` is in chunk `j` and its bytes start with "FILE" |
| ChunkScan.ChunkTablesDisjoint | src/worker.py:61-67 | the chunk tables are valid and share no id |
| ChunkScan.ReadChunk | src/worker.py:66-68 | seeking to the chunk and reading it, then `read_buffer`, gives the chunk's table |
| ChunkScan.SubmitChunks | src/worker.py:64-69 | the submissions give each chunk's table, in chunk order |
| ChunkScan.MergeResults | src/worker.py:71-74 | the merge loop folds `update` over the results in completion order |
| ChunkScan.ScanTable | src/worker.py:57-76 | the table `scan` builds is the merge of the chunk tables in completion order |
| ChunkScan.ScanTableMeaning | src/worker.py:57-76 | for any completion order, the table holds id `k` exactly when `k` is below 2,000,000 and its 1024 bytes at `base + 1024*k` start with "FILE", with those bytes and their name and parent |
| ChunkScan.ScanTableOrderIndependent | src/worker.py:71-74 | the table's contents are the same for every completion order |
| ChunkScan.ScanTableKeys | src/worker.py:71-74 | the table iterates chunk by chunk in completion order, ids increasing within a chunk |
| ChunkScan.ScanKeysFollowCompletion | src/worker.py:71-74 | a record whose chunk completes before another record's chunk comes before it in the table's iteration order |
| Paths.FuelAgrees | src/worker.py:29-34 | once the walk stops within some bound it stops within any larger one, with the same names |
| Paths.BuildPathIs | src/worker.py:29-35 | the path does not depend on the step bound used to measure it |
| Paths.BuildPath | src/worker.py:35 | every path starts with "/" |
| Paths.Build | src/worker.py:27-35 | the loop returns the path of the record's parent chain |
| Paths.BuildAtRoot | src/worker.py:29-32 | an absent id, a record without a parent, a self-parented record and one whose parent is absent all give "/" |
| Paths.BuildStep | src/worker.py:29-35 | below the root, a path is the parent's path plus "/" and the name, or "/" and the name when the parent is the topmost record |
| Paths.BuildExample | src/worker.py:27-35 | root 5 (its own parent), "A" under it and "B" under "A": `build(B)` is "/A/B" |
| Paths.TwoCycleNeverStops | src/worker.py:29-34 | two records that are each other's parent make `build` run forever |
| Paths.JoinSnoc | src/worker.py:35 | joining one more name appends "/" and the name |
| Paths.ChildIdsMeaning | src/worker.py:39-40 | the ids listed are exactly the table's keys whose parent is the given id |
| Paths.Collect | src/worker.py:37-49 | the loop and its recursion return the collected list |
| Paths.CollectedMeaning | src/worker.py:37-49 | one item per record whose parent is the id, in iteration order, each with its `build` path and entry; a directory item (with its collected children) exactly when `is_directory` holds |
| Paths.CollectStopsMonotone | src/worker.py:39-46 | collection that stops within some depth stops within any greater depth |
| Paths.CollectedFuelIndependent | src/worker.py:37-49 | the collected list does not depend on the depth bound used to measure it |
| Paths.SelfParentedDirectoryNeverStops | src/worker.py:40-45 | no depth bound makes `collect` stop on a self-parented directory: it calls itself on the same id at every level (CPython then raises `RecursionError`) |
| Lookup.LowerChar | src/worker.py:52 | lower-casing maps `A`-`Z` to `a`-`z` and keeps every other character |
| Lookup.Lower | src/worker.py:52 | each character is lower-cased by `LowerChar`, so the length is kept and no upper-case letter is left |
| Lookup.LowerIdempotent | src/worker.py:52 | lower-casing twice is lower-casing once |
| Lookup.ReplaceBackslash | src/worker.py:52 | each backslash becomes `/` and every other character is kept, so the length is kept and no backslash is left |
| Lookup.StripDrive | src/worker.py:53 | a leading drive letter and colon are removed, once; anything else is left alone |
| Lookup.Normalise | src/worker.py:52-53 | with d = 2 when the input starts with a letter and a colon and d = 0 otherwise, the target is d characters shorter and its character i is input character i + d with `\` turned into `/` and then lower-cased; so no backslash and no upper-case letter is left |
| Lookup.NormaliseExample | src/worker.py:52-53 | `C:\Users\Bob` becomes `/users/bob` |
| Lookup.NormaliseNotIdempotent | src/worker.py:53 | only one drive prefix is removed: `c:d:x` gives `d:x`, which gives `x` |
| Lookup.SearchStopsWhenChainsEnd | src/worker.py:81-92 | when every parent chain reaches a root the search terminates for any target |
| Lookup.FirstMatch | src/worker.py:81-92 | the search position holds a matching record, none before it matches, and no position matches when it finds nothing |
| Lookup.TargetId | src/worker.py:81-92 | the found id is in the table |
| Lookup.FindTarget | src/worker.py:81-92 | the loop returns the first matching record in iteration order, or nothing |
| Lookup.FoundIffSomeMatch | src/worker.py:81-95 | a record is found exactly when some record's lower-cased path is the target |
| Lookup.UniqueMatchFound | src/worker.py:81-92 | when exactly one record matches, it is found, whatever the iteration order |
| Lookup.FirstMatchDependsOnOrder | src/worker.py:71-92 | records 1 and 5001, in different chunks and with the same path, are found one or the other depending on which of the two orders the table iterates in |
| Lookup.OutcomeMeaning | src/worker.py:81-107 | `FileNotFoundError` exactly when no record matches; otherwise the first matching record's collected children for a directory, or its entry |
| Lookup.EmptyTableNotFound | src/worker.py:80-95 | on a table with no records the lookup stops and fails with `FileNotFoundError` for every target |
| Lookup.AsWrittenScanNotFound | src/worker.py:80-95 | as written, `scan` fails with `FileNotFoundError` for every image, completion order and target |
| Lookup.Find | src/worker.py:79-107 | the search then the answer returns the lookup outcome |
| Lookup.Scan | src/worker.py:51-107 | normalise, build the table at `mft_cluster*cluster_size`, search and answer: the lookup outcome on the built table |

## Left out

- Opening files and devices is left to the caller.
  - `BootSector.read` takes the volume's bytes.
  - `raw_data` takes the device image in place of `\\.\C:`.
  - `scan` takes the image's bytes in place of `image_path`.
  - Failing to open any of them is not modelled.
- The thread pool is not modelled; a completion-order parameter stands in for `as_completed`.
  - The `except Exception` around `future.result()` (src/worker.py:73-76) never fires in the model, because `read_buffer` does not raise.
- Logging is left out, and so is the entry built in the search loop only to log whether the match is a directory (src/worker.py:86-90).
- `os.path.abspath` depends on the working directory. `Lookup.Scan` takes its result as a parameter.
- Lookup.Lower: folds only the ASCII letters `A`-`Z`, because Python's Unicode case mapping is not modelled; a path with non-ASCII capitals compares differently.
- The `entry_data is None` checks (src/worker.py:82-83, 97-100) are not modelled. Every row of the table holds the record's bytes, so they never fire, and neither does the `return None` after them.
- Paths.Build: requires that the parent chain reaches a root. Otherwise the Python loop runs forever, and the model cannot express that.
- Paths.Collect: does not model CPython's recursion limit (about 1000 frames, less the frames already in use). It requires that collection stops within the ghost depth `fuel`. The source instead raises `RecursionError` on a self-parented directory, which includes the NTFS root (record 5, a directory that is its own parent), and on any directory tree deeper than the limit; for such a deep acyclic tree the model returns the list where the source raises.
- Lookup.Scan: requires the same two termination conditions for the search and for collecting the found directory. So it does not model the `RecursionError` that escapes `scan` when the found directory is self-parented (looking up the volume root `/`) or nested deeper than the recursion limit.
- Lookup.Scan: takes `cluster_size` and `mft_cluster` as naturals. The boot sector decodes them as unsigned numbers, so a negative MFT offset cannot arise from it.
- Record.Utf16LeDecode: the number of replacement characters for a high surrogate cut off by the end of the name is fixed at one.
- Sparse runs (a delta field of width 0) are not modelled, because the decoder stops at a zero nibble, as the code does.
- `src/main.py` is not part of this model: argument parsing and writing the recovered files.

## Findings

| source | as written | input that shows it | evidently intended | confidence | as-written member | corrected member |
|---|---|---|---|---|---|---|
| src/worker.py:21 | `read_buffer` calls `entry.get_filename()`, which the record class (src/helper.py:30) does not define. The resulting `AttributeError` is swallowed by the bare `except` (src/worker.py:23-24), so every chunk table is empty, the scan table is empty (`ChunkScan.AsWrittenScanEmpty`) and every lookup raises `FileNotFoundError` (`Lookup.AsWrittenScanNotFound`). | a chunk whose first 1024-byte slot starts with "FILE": the record is not stored | call `entry.filename()`, storing every record whose slot starts with "FILE" under `start_index + i` | high; not executed | ChunkScan.AsWrittenKeepsNothing | ChunkScan.ReadBuffer |
