/**
 * Path reconstruction and tree collection in src/worker.py: `build` follows
 * the parent references of the record table up to a root and joins the names
 * on the way; `collect` lists the records whose parent is a given id, in the
 * table's iteration order, descending into directories.
 *
 * Neither has a depth cap. The loop of `build` runs forever on a parent
 * cycle. `collect` calls itself once per directory level, so on a
 * self-parented directory, or a tree deeper than the interpreter's recursion
 * limit, CPython raises `RecursionError`, which nothing catches. The model
 * has no interpreter limit: a ghost `fuel` bounds the number of steps or
 * levels, and the operations are required to stop within it.
 */
module Paths {
  import opened Bytes
  import opened Record
  import opened Tables

  // -------------------------------------------------------------- build

  /**
   * The `while` loop of `build` stops at id `id`: the id is not in the table,
   * or its parent is None, the id itself, or an id not in the table.
   */
  predicate AtRoot(t: Table, id: nat) {
    id !in t.rows || t.rows[id].parent.None? || t.rows[id].parent.value == id || t.rows[id].parent.value !in t.rows
  }

  /** The loop started at `id` reaches a root within `fuel` further steps. */
  predicate StopsWithin(t: Table, id: nat, fuel: nat)
    decreases fuel
  {
    AtRoot(t, id) || (fuel > 0 && StopsWithin(t, t.rows[id].parent.value, fuel - 1))
  }

  /** The names `build` appends to `parts`, leaf first. */
  function Segments(t: Table, id: nat, fuel: nat): seq<string>
    requires StopsWithin(t, id, fuel)
    decreases fuel
  {
    if AtRoot(t, id) then [] else [t.rows[id].name] + Segments(t, t.rows[id].parent.value, fuel - 1)
  }

  function Reverse<T>(s: seq<T>): (r: seq<T>)
    ensures |r| == |s|
  {
    if s == [] then [] else Reverse(s[1..]) + [s[0]]
  }

  /** `'/'.join(parts)`. */
  function Join(parts: seq<string>): string {
    if |parts| == 0 then "" else if |parts| == 1 then parts[0] else parts[0] + "/" + Join(parts[1..])
  }

  /** What `build` returns for `id`: a slash, then the names from the top down. */
  function PathOf(t: Table, id: nat, fuel: nat): string
    requires StopsWithin(t, id, fuel)
  {
    "/" + Join(Reverse(Segments(t, id, fuel)))
  }

  /** More fuel than needed changes nothing. */
  lemma {:induction false} FuelAgrees(t: Table, id: nat, f1: nat, f2: nat)
    requires StopsWithin(t, id, f1) && f1 <= f2
    ensures StopsWithin(t, id, f2) && Segments(t, id, f1) == Segments(t, id, f2)
    decreases f1
  {
    if !AtRoot(t, id) {
      FuelAgrees(t, t.rows[id].parent.value, f1 - 1, f2 - 1);
    }
  }

  /** `build(id)` terminates: the parent chain from `id` reaches a root. */
  ghost predicate BuildStops(t: Table, id: nat) {
    exists fuel: nat :: StopsWithin(t, id, fuel)
  }

  /** The path `build` returns, for an id whose chain reaches a root. */
  ghost function BuildPath(t: Table, id: nat): (path: string)
    requires BuildStops(t, id)
    ensures |path| >= 1 && path[0] == '/'
  {
    var fuel: nat :| StopsWithin(t, id, fuel);
    PathOf(t, id, fuel)
  }

  /** The path does not depend on which sufficient fuel measures it. */
  lemma BuildPathIs(t: Table, id: nat, fuel: nat)
    requires StopsWithin(t, id, fuel)
    ensures BuildStops(t, id) && BuildPath(t, id) == PathOf(t, id, fuel)
  {
    var f: nat :| StopsWithin(t, id, f) && BuildPath(t, id) == PathOf(t, id, f);
    if f <= fuel {
      FuelAgrees(t, id, f, fuel);
    } else {
      FuelAgrees(t, id, fuel, f);
    }
    assert Segments(t, id, f) == Segments(t, id, fuel);
    assert PathOf(t, id, f) == PathOf(t, id, fuel);
    assert BuildStops(t, id);
  }

  /**
   * `build(entry_id, id_to_entry)`: walks up the parent chain, collecting
   * names, and joins them top-down after a leading slash.
   */
  method Build(entryId: nat, idToEntry: Table) returns (path: string)
    requires BuildStops(idToEntry, entryId)
    ensures path == BuildPath(idToEntry, entryId)
  {
    ghost var fuel: nat :| StopsWithin(idToEntry, entryId, fuel);
    BuildPathIs(idToEntry, entryId, fuel);
    var parts: seq<string> := [];
    var id := entryId;
    ghost var f := fuel;
    while id in idToEntry.rows
      invariant StopsWithin(idToEntry, id, f)
      invariant Reverse(Segments(idToEntry, entryId, fuel)) == Reverse(Segments(idToEntry, id, f)) + Reverse(parts)
      decreases f
    {
      var row := idToEntry.rows[id];
      if row.parent.None? || row.parent.value == id || row.parent.value !in idToEntry.rows {
        break;
      }
      ReverseCons(row.name, Segments(idToEntry, row.parent.value, f - 1));
      ReverseSnoc(parts, row.name);
      Associative(Reverse(Segments(idToEntry, row.parent.value, f - 1)), [row.name], Reverse(parts));
      parts := parts + [row.name];
      id := row.parent.value;
      f := f - 1;
    }
    assert AtRoot(idToEntry, id);
    assert Reverse(Segments(idToEntry, entryId, fuel)) == Reverse(parts);
    path := "/" + Join(Reverse(parts));
  }

  lemma ReverseCons<T>(x: T, s: seq<T>)
    ensures Reverse([x] + s) == Reverse(s) + [x]
  {
    assert ([x] + s)[1..] == s;
  }

  lemma {:induction false} ReverseSnoc<T>(s: seq<T>, x: T)
    ensures Reverse(s + [x]) == [x] + Reverse(s)
  {
    if s != [] {
      assert (s + [x])[1..] == s[1..] + [x];
      ReverseSnoc(s[1..], x);
    }
  }

  /** `build` returns "/" for an absent id, a record without or with itself as parent, and a record whose parent is absent. */
  lemma BuildAtRoot(t: Table, id: nat)
    requires AtRoot(t, id)
    ensures BuildStops(t, id) && BuildPath(t, id) == "/"
  {
    BuildPathIs(t, id, 0);
  }

  lemma JoinSnoc(parts: seq<string>, name: string)
    requires parts != []
    ensures Join(parts + [name]) == Join(parts) + "/" + name
    decreases |parts|
  {
    if |parts| == 1 {
      assert parts + [name] == [parts[0], name];
    } else {
      assert (parts + [name])[1..] == parts[1..] + [name];
      JoinSnoc(parts[1..], name);
    }
  }

  /**
   * A record below the root: its path is its parent's path with its own name
   * appended, or "/" followed by its name when the parent is where the walk
   * stops (the topmost record's own name is never part of a path).
   */
  lemma BuildStep(t: Table, id: nat)
    requires !AtRoot(t, id) && BuildStops(t, t.rows[id].parent.value)
    ensures BuildStops(t, id)
    ensures BuildPath(t, id) == if AtRoot(t, t.rows[id].parent.value) then "/" + t.rows[id].name
      else BuildPath(t, t.rows[id].parent.value) + "/" + t.rows[id].name
  {
    var p, name := t.rows[id].parent.value, t.rows[id].name;
    var f: nat :| StopsWithin(t, p, f);
    assert StopsWithin(t, id, f + 1);
    BuildPathIs(t, p, f);
    BuildPathIs(t, id, f + 1);
    var up := Reverse(Segments(t, p, f));
    ReverseCons(name, Segments(t, p, f));
    assert Reverse(Segments(t, id, f + 1)) == up + [name];
    if AtRoot(t, p) {
      assert up + [name] == [name];
    } else {
      assert up != [];
      JoinSnoc(up, name);
    }
  }

  /**
   * A root record 5 that is its own parent, a directory "A" (6) under it and
   * a file "B" (7) under that: `build(7)` is "/A/B", without the root's name.
   */
  lemma BuildExample(raw: seq<byte>)
    ensures var t := Table([5, 6, 7], map[5 := Row(".", Some(5), raw), 6 := Row("A", Some(5), raw), 7 := Row("B", Some(6), raw)]);
      BuildStops(t, 7) && BuildPath(t, 7) == "/A/B"
  {
    var t := Table([5, 6, 7], map[5 := Row(".", Some(5), raw), 6 := Row("A", Some(5), raw), 7 := Row("B", Some(6), raw)]);
    BuildAtRoot(t, 5);
    BuildStep(t, 6);
    BuildStep(t, 7);
  }

  /** A two-record cycle below no root: `build` never returns from either record. */
  lemma {:induction false} TwoCycleNeverStops(t: Table, a: nat, b: nat, fuel: nat)
    requires a in t.rows && b in t.rows && a != b
    requires t.rows[a].parent == Some(b) && t.rows[b].parent == Some(a)
    ensures !StopsWithin(t, a, fuel) && !StopsWithin(t, b, fuel)
    decreases fuel
  {
    if fuel > 0 {
      TwoCycleNeverStops(t, a, b, fuel - 1);
    }
  }

  // ------------------------------------------------------------ collect

  /** An item of `collect`'s list: `(full_path, entry)` for a file, `(full_path, entry, children)` for a directory. */
  datatype Item =
    | FileItem(path: string, entry: MftEntry)
    | DirItem(path: string, entry: MftEntry, children: seq<Item>)

  /** The ids whose parent is `pid`, in the table's iteration order among its first `n` keys. */
  function ChildIds(t: Table, pid: nat, n: nat): (ids: seq<nat>)
    requires Valid(t) && n <= |t.keys|
    ensures |ids| <= n
  {
    if n == 0 then []
    else
      var id := t.keys[n - 1];
      ChildIds(t, pid, n - 1) + if t.rows[id].parent == Some(pid) then [id] else []
  }

  /** An id is listed exactly when it is among the first `n` keys and its parent is `pid`. */
  lemma {:induction false} ChildIdsMeaning(t: Table, pid: nat, n: nat, id: nat)
    requires Valid(t) && n <= |t.keys|
    ensures id in ChildIds(t, pid, n) <==> id in t.keys[..n] && t.rows[id].parent == Some(pid)
  {
    if n > 0 {
      ChildIdsMeaning(t, pid, n - 1, id);
      assert t.keys[..n] == t.keys[..n - 1] + [t.keys[n - 1]];
    }
  }

  /**
   * `collect(pid)` terminates within `fuel` levels of directories: `build`
   * terminates on every child, and `collect` on every child directory one
   * level down.
   */
  ghost predicate CollectStops(t: Table, pid: nat, fuel: nat)
    requires Valid(t)
    decreases fuel
  {
    && fuel > 0
    && forall i :: 0 <= i < |t.keys| && t.rows[t.keys[i]].parent == Some(pid) ==>
         && BuildStops(t, t.keys[i])
         && (IsDirectory(t.rows[t.keys[i]].raw) ==> CollectStops(t, t.keys[i], fuel - 1))
  }

  /** The list `collect(pid)` has built after the first `n` keys of the table. */
  ghost function CollectedUpTo(t: Table, pid: nat, cs: nat, fuel: nat, n: nat): seq<Item>
    requires Valid(t) && CollectStops(t, pid, fuel) && n <= |t.keys|
    decreases fuel, n
  {
    if n == 0 then []
    else
      var prior := CollectedUpTo(t, pid, cs, fuel, n - 1);
      var id := t.keys[n - 1];
      var row := t.rows[id];
      if row.parent != Some(pid) then prior
      else
        var entry := MftEntry(row.raw, cs);
        if IsDirectory(row.raw) then prior + [DirItem(BuildPath(t, id), entry, CollectedUpTo(t, id, cs, fuel - 1, |t.keys|))]
        else prior + [FileItem(BuildPath(t, id), entry)]
  }

  ghost function Collected(t: Table, pid: nat, cs: nat, fuel: nat): seq<Item>
    requires Valid(t) && CollectStops(t, pid, fuel)
  {
    CollectedUpTo(t, pid, cs, fuel, |t.keys|)
  }

  /**
   * `collect(parent_id, id_to_entry, cluster_size)`: one pass over the table
   * in iteration order, building each child's path and descending into
   * child directories.
   */
  method Collect(parentId: nat, idToEntry: Table, clusterSize: nat, ghost fuel: nat) returns (collected: seq<Item>)
    requires Valid(idToEntry) && CollectStops(idToEntry, parentId, fuel)
    ensures collected == Collected(idToEntry, parentId, clusterSize, fuel)
    decreases fuel
  {
    collected := [];
    for i := 0 to |idToEntry.keys|
      invariant collected == CollectedUpTo(idToEntry, parentId, clusterSize, fuel, i)
    {
      var idx := idToEntry.keys[i];
      var row := idToEntry.rows[idx];
      if row.parent == Some(parentId) {
        var entry := MftEntry(row.raw, clusterSize);
        var fullPath := Build(idx, idToEntry);
        if IsDirectory(entry.data) {
          var children := Collect(idx, idToEntry, clusterSize, fuel - 1);
          collected := collected + [DirItem(fullPath, entry, children)];
        } else {
          collected := collected + [FileItem(fullPath, entry)];
        }
      }
    }
  }

  /**
   * `collect` lists exactly the records whose parent is `pid`, in iteration
   * order: each with its `build` path and its entry, as a directory item with
   * its own collected children when `is_directory` holds, else as a file item.
   */
  lemma {:induction false} CollectedMeaning(t: Table, pid: nat, cs: nat, fuel: nat, n: nat)
    requires Valid(t) && CollectStops(t, pid, fuel) && n <= |t.keys|
    ensures var items, ids := CollectedUpTo(t, pid, cs, fuel, n), ChildIds(t, pid, n);
      && |items| == |ids|
      && forall j :: 0 <= j < |ids| ==>
           && ids[j] in t.rows && t.rows[ids[j]].parent == Some(pid) && BuildStops(t, ids[j])
           && items[j].path == BuildPath(t, ids[j])
           && items[j].entry == MftEntry(t.rows[ids[j]].raw, cs)
           && (items[j].DirItem? <==> IsDirectory(t.rows[ids[j]].raw))
           && (items[j].DirItem? ==> CollectStops(t, ids[j], fuel - 1) && items[j].children == Collected(t, ids[j], cs, fuel - 1))
    decreases n
  {
    if n > 0 {
      CollectedMeaning(t, pid, cs, fuel, n - 1);
    }
  }

  /** Collection that stops within some number of levels stops within any larger number. */
  lemma {:induction false} CollectStopsMonotone(t: Table, pid: nat, f1: nat, f2: nat)
    requires Valid(t) && CollectStops(t, pid, f1) && f1 <= f2
    ensures CollectStops(t, pid, f2)
    decreases f1
  {
    forall i | 0 <= i < |t.keys| && t.rows[t.keys[i]].parent == Some(pid) && IsDirectory(t.rows[t.keys[i]].raw)
      ensures CollectStops(t, t.keys[i], f2 - 1)
    {
      CollectStopsMonotone(t, t.keys[i], f1 - 1, f2 - 1);
    }
  }

  /** The collected list does not depend on the level bound used to measure it. */
  lemma {:induction false} CollectedFuelIndependent(t: Table, pid: nat, cs: nat, f1: nat, f2: nat, n: nat)
    requires Valid(t) && CollectStops(t, pid, f1) && f1 <= f2 && n <= |t.keys|
    ensures CollectStops(t, pid, f2) && CollectedUpTo(t, pid, cs, f1, n) == CollectedUpTo(t, pid, cs, f2, n)
    decreases f1, n
  {
    CollectStopsMonotone(t, pid, f1, f2);
    if n > 0 {
      CollectedFuelIndependent(t, pid, cs, f1, f2, n - 1);
      var id := t.keys[n - 1];
      if t.rows[id].parent == Some(pid) && IsDirectory(t.rows[id].raw) {
        CollectedFuelIndependent(t, id, cs, f1 - 1, f2 - 1, |t.keys|);
      }
    }
  }

  /**
   * `collect` on a self-parented directory calls itself again on the same id
   * at every level, so no depth bound is enough; CPython ends this recursion
   * with `RecursionError`.
   */
  lemma {:induction false} SelfParentedDirectoryNeverStops(t: Table, id: nat, fuel: nat)
    requires Valid(t) && id in t.rows && t.rows[id].parent == Some(id) && IsDirectory(t.rows[id].raw)
    ensures !CollectStops(t, id, fuel)
    decreases fuel
  {
    if fuel > 0 {
      SelfParentedDirectoryNeverStops(t, id, fuel - 1);
      var i :| 0 <= i < |t.keys| && t.keys[i] == id;
    }
  }
}
