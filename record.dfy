/**
 * One MFT record (`MFTEntry` in src/helper.py): the signature and flag
 * predicates and the `$FILE_NAME` attribute walk of `filename`.
 *
 * A record is the byte string `data` (1024 bytes when the device had them,
 * fewer at the end of the image); every read inside it follows Python's
 * slice semantics, and only single-byte indexing can raise.
 */
module Record {
  import opened Bytes

  const RecordSize: nat := 1024
  const DefaultClusterSize: nat := 4096
  const AttrFileName: nat := 0x30
  const AttrData: nat := 0x80
  const AttrEnd: nat := 0xFFFF_FFFF
  /** `& 0xFFFFFFFFFFFF` on a non-negative integer is reduction modulo 2^48. */
  const ParentModulus: nat := 0x1_0000_0000_0000
  /** ASCII "FILE". */
  const Magic: seq<byte> := [0x46, 0x49, 0x4C, 0x45]

  /** An `MFTEntry` as the table and the tree hand it out: the record bytes and the cluster size. */
  datatype MftEntry = MftEntry(data: seq<byte>, clusterSize: nat)

  // ---------------------------------------------------------------- flags

  /** `is_valid`: the record starts with the ASCII signature "FILE". */
  function IsValid(data: seq<byte>): (r: bool)
    ensures r <==> |data| >= 4 && data[0] == 0x46 && data[1] == 0x49 && data[2] == 0x4C && data[3] == 0x45
  {
    Slice(data, 0, 4) == Magic
  }

  /** The little-endian u16 flags field at offset 22. */
  function Flags(data: seq<byte>): nat { Field(data, 22, 2) }

  /** Bits 0 and 1 of `r + 4 * k` are those of `r`. */
  lemma LowBits(r: nat, k: nat)
    requires r < 4
    ensures (r + 4 * k) % 2 == r % 2 && ((r + 4 * k) / 2) % 2 == (r / 2) % 2
  {
    assert (r + 4 * k) / 2 == r / 2 + 2 * k;
  }

  lemma FlagsLowByte(data: seq<byte>)
    requires |data| >= 23
    ensures Flags(data) % 2 == data[22] % 2
    ensures (Flags(data) / 2) % 2 == (data[22] / 2) % 2
  {
    var lo: nat, hi: nat := data[22], ByteOr0(data, 23);
    assert Flags(data) == lo + 256 * hi;
    LowBits(lo % 4, lo / 4 + 64 * hi);
    LowBits(lo % 4, lo / 4);
  }

  /**
   * `is_deleted`: bit 0 (in use) of the flags is clear. Only bit 0 of byte 22
   * matters; a record too short to hold byte 22 reads as flags 0, so deleted.
   */
  function IsDeleted(data: seq<byte>): (r: bool)
    ensures |data| >= 23 ==> (r <==> data[22] % 2 == 0)
    ensures |data| <= 22 ==> r
  {
    if |data| >= 23 then FlagsLowByte(data); Flags(data) % 2 == 0
    else Flags(data) % 2 == 0
  }

  /** `is_directory`: bit 1 of the flags is set. Only bit 1 of byte 22 matters. */
  function IsDirectory(data: seq<byte>): (r: bool)
    ensures |data| >= 23 ==> (r <==> (data[22] / 2) % 2 == 1)
    ensures |data| <= 22 ==> !r
  {
    if |data| >= 23 then FlagsLowByte(data); (Flags(data) / 2) % 2 == 1
    else (Flags(data) / 2) % 2 == 1
  }

  // ------------------------------------------------------------ UTF-16LE

  const Replacement: char := '�'

  /**
   * `bytes.decode('utf-16le', errors='replace')`: code units are read in
   * pairs of bytes, a high surrogate followed by a low one forms one
   * character, a lone surrogate or a trailing odd byte becomes U+FFFD, and a
   * high surrogate cut short by the end of the input becomes one U+FFFD.
   */
  function Utf16LeDecode(b: seq<byte>): (s: string)
    ensures |s| == 0 <==> |b| == 0
    ensures |s| <= (|b| + 1) / 2
    decreases |b|
  {
    if |b| == 0 then ""
    else if |b| == 1 then [Replacement]
    else
      var u := b[0] as int + 256 * b[1] as int;
      if u < 0xD800 || 0xE000 <= u then [u as char] + Utf16LeDecode(b[2..])
      else if u < 0xDC00 && |b| >= 4 && 0xDC00 <= b[2] as int + 256 * b[3] as int < 0xE000 then
        var v := b[2] as int + 256 * b[3] as int;
        [(0x1_0000 + (u - 0xD800) * 0x400 + (v - 0xDC00)) as char] + Utf16LeDecode(b[4..])
      else if u < 0xDC00 && |b| == 3 then [Replacement]
      else [Replacement] + Utf16LeDecode(b[2..])
  }

  // ------------------------------------------------ attribute headers

  /** The 16-bit offset of the first attribute, at 20. */
  function FirstAttr(data: seq<byte>): nat { Field(data, 20, 2) }

  /** The namespace (+89) and decoded name (2 * length bytes at +90, length at +88) of a `$FILE_NAME`. */
  datatype NameInfo = NameInfo(namespace: byte, name: string)

  /**
   * What the walks read at a cursor: the 32-bit type, the 32-bit length at +4,
   * the 48-bit parent reference at +24 (masked), and the name fields when
   * bytes +88 and +89 exist (`nameInfo` is None exactly when reading them raises).
   */
  datatype Attr = Attr(kind: nat, length: nat, parentRef: nat, nameInfo: Option<NameInfo>)

  function AttrAt(data: seq<byte>, off: nat): (a: Attr)
    ensures a.parentRef < ParentModulus
    ensures a.nameInfo.Some? <==> off + 89 < |data|
  {
    Attr(Field(data, off, 4), Field(data, off + 4, 4), Field(data, off + 24, 6) % ParentModulus,
         if off + 89 < |data| then
           Some(NameInfo(data[off + 89], Utf16LeDecode(Slice(data, off + 90, off + 90 + 2 * (data[off + 88] as nat)))))
         else None)
  }

  /** The headers at cursor positions `0 .. n - 1`. */
  function AttrsUpTo(data: seq<byte>, n: nat): (v: seq<Attr>)
    ensures |v| == n
  {
    if n == 0 then [] else AttrsUpTo(data, n - 1) + [AttrAt(data, n - 1)]
  }

  lemma {:induction false} AttrsUpToAt(data: seq<byte>, n: nat, i: nat)
    requires i < n
    ensures AttrsUpTo(data, n)[i] == AttrAt(data, i)
  {
    if i < n - 1 {
      AttrsUpToAt(data, n - 1, i);
    }
  }

  /** The header at every cursor position the walk can stand on: 0 up to 1023. */
  function Attrs(data: seq<byte>): (v: seq<Attr>)
    ensures |v| == RecordSize
  {
    AttrsUpTo(data, RecordSize)
  }

  // ---------------------------------------------------- the name walk

  /** The loop variables `long_name`, `short_name` and `parent_ref` of `filename`. */
  datatype Names = Names(longName: Option<string>, shortName: Option<string>, parentRef: Option<nat>)

  const NoNames: Names := Names(None, None, None)

  /** Python truthiness of an optional string: neither None nor "". */
  predicate Truthy(s: Option<string>) { s.Some? && s.value != "" }

  /** Namespace 1: a DOS short name. */
  predicate IsShortName(a: Attr) { a.nameInfo.Some? && a.nameInfo.value.namespace == 1 }

  /** Namespace 0 or 3: a Win32 (or Win32 and DOS) long name. */
  predicate IsLongName(a: Attr) {
    a.nameInfo.Some? && (a.nameInfo.value.namespace == 0 || a.nameInfo.value.namespace == 3)
  }

  /** What the `$FILE_NAME` branch of the loop body does to the three variables. */
  function Absorb(a: Attr, st: Names): Names {
    var withParent := st.(parentRef := Some(a.parentRef));
    if IsShortName(a) then withParent.(shortName := Some(a.nameInfo.value.name))
    else if IsLongName(a) && !Truthy(st.longName) then withParent.(longName := Some(a.nameInfo.value.name))
    else withParent
  }

  /** What the loop body does to the state, before deciding whether to leave. */
  function Visit(a: Attr, st: Names): Names {
    if a.kind == AttrFileName then Absorb(a, st) else st
  }

  /**
   * The loop leaves after its body: the end marker, a `$FILE_NAME` whose name
   * header lies past the end (the read raises and the bare `except` breaks),
   * or a zero attribute length.
   */
  predicate LeavesAt(a: Attr) {
    a.kind == AttrEnd || (a.kind == AttrFileName && a.nameInfo.None?) || a.length == 0
  }

  /**
   * The state of `filename`'s loop once it has run from cursor `off` with
   * state `st`, over the headers `v` at the positions below 1024.
   */
  function NameWalk(v: seq<Attr>, off: nat, st: Names): Names
    decreases |v| - off
  {
    if off >= |v| then st
    else if LeavesAt(v[off]) then Visit(v[off], st)
    else NameWalk(v, off + v[off].length, Visit(v[off], st))
  }

  /** One turn of the loop. */
  lemma WalkStep(v: seq<Attr>, off: nat, st: Names)
    requires off < |v|
    ensures NameWalk(v, off, st) ==
      if LeavesAt(v[off]) then Visit(v[off], st) else NameWalk(v, off + v[off].length, Visit(v[off], st))
  {
  }

  /** The loop leaves after visiting a leaving attribute. */
  lemma WalkLeaves(data: seq<byte>, off: nat, st: Names)
    requires off < RecordSize && LeavesAt(AttrAt(data, off))
    ensures NameWalk(Attrs(data), off, st) == Visit(AttrAt(data, off), st)
  {
    AttrsUpToAt(data, RecordSize, off);
    WalkStep(Attrs(data), off, st);
  }

  /** The loop moves on by the attribute's length after visiting any other attribute. */
  lemma WalkContinues(data: seq<byte>, off: nat, st: Names, len: nat, visited: Names)
    requires off < RecordSize && !LeavesAt(AttrAt(data, off))
    requires len == AttrAt(data, off).length && visited == Visit(AttrAt(data, off), st)
    ensures NameWalk(Attrs(data), off, st) == NameWalk(Attrs(data), off + len, visited)
  {
    AttrsUpToAt(data, RecordSize, off);
    WalkStep(Attrs(data), off, st);
  }

  /** `long_name or short_name or "Unknown"`. */
  function ResolveName(n: Names): string {
    if Truthy(n.longName) then n.longName.value
    else if Truthy(n.shortName) then n.shortName.value
    else "Unknown"
  }

  // ------------------------------------- the walk described independently

  /** The cursor positions at which the loop body of `filename` runs, in order. */
  function Cursors(v: seq<Attr>, off: nat): seq<nat>
    decreases |v| - off
  {
    if off >= |v| then []
    else if LeavesAt(v[off]) then [off]
    else [off] + Cursors(v, off + v[off].length)
  }

  /**
   * The walk only moves forward, by the attribute's nonzero length, stays
   * below 1024, and ends either at a leaving attribute or by passing 1024.
   */
  lemma {:induction false} CursorsAdvance(v: seq<Attr>, off: nat)
    ensures var cs := Cursors(v, off);
      && (off < |v| <==> |cs| > 0)
      && (|cs| > 0 ==> cs[0] == off)
      && (forall i :: 0 <= i < |cs| ==> off <= cs[i] < |v|)
      && (forall i :: 0 <= i < |cs| - 1 ==>
            !LeavesAt(v[cs[i]]) && v[cs[i]].length > 0 && cs[i + 1] == cs[i] + v[cs[i]].length)
      && (|cs| > 0 ==> LeavesAt(v[cs[|cs| - 1]]) || cs[|cs| - 1] + v[cs[|cs| - 1]].length >= |v|)
    decreases |v| - off
  {
    if off < |v| && !LeavesAt(v[off]) {
      var next := off + v[off].length;
      CursorsAdvance(v, next);
      var rest := Cursors(v, next);
      var cs := Cursors(v, off);
      assert cs == [off] + rest;
      forall i | 0 <= i < |cs|
        ensures off <= cs[i] < |v|
      {
        if i > 0 { assert cs[i] == rest[i - 1]; }
      }
      forall i | 0 <= i < |cs| - 1
        ensures !LeavesAt(v[cs[i]]) && v[cs[i]].length > 0 && cs[i + 1] == cs[i] + v[cs[i]].length
      {
        assert cs[i + 1] == rest[i];
        if i > 0 { assert cs[i] == rest[i - 1]; }
      }
      if rest != [] {
        assert cs[|cs| - 1] == rest[|rest| - 1];
      }
    }
  }

  /** `[a]` when `a` is a `$FILE_NAME`, else nothing. */
  function Head(a: Attr): seq<Attr> { if a.kind == AttrFileName then [a] else [] }

  /** The `$FILE_NAME` attributes the walk from `off` visits, in order. */
  function FileNamesFrom(v: seq<Attr>, off: nat): seq<Attr>
    decreases |v| - off
  {
    if off >= |v| then []
    else if LeavesAt(v[off]) then Head(v[off])
    else Head(v[off]) + FileNamesFrom(v, off + v[off].length)
  }

  /** The `$FILE_NAME` attributes at the positions `cs`. */
  function FileNamesAt(v: seq<Attr>, cs: seq<nat>): seq<Attr>
    requires forall i :: 0 <= i < |cs| ==> cs[i] < |v|
  {
    if cs == [] then []
    else Head(v[cs[0]]) + FileNamesAt(v, cs[1..])
  }

  /** `FileNamesFrom` is the `$FILE_NAME` attributes at the cursor positions. */
  lemma {:induction false} FileNamesAtCursors(v: seq<Attr>, off: nat)
    ensures forall i :: 0 <= i < |Cursors(v, off)| ==> Cursors(v, off)[i] < |v|
    ensures FileNamesFrom(v, off) == FileNamesAt(v, Cursors(v, off))
    decreases |v| - off
  {
    CursorsAdvance(v, off);
    if off < |v| {
      var cs := Cursors(v, off);
      var rest := if LeavesAt(v[off]) then [] else Cursors(v, off + v[off].length);
      if !LeavesAt(v[off]) {
        FileNamesAtCursors(v, off + v[off].length);
      }
      assert cs == [off] + rest && cs[1..] == rest;
    }
  }

  /** The first long name among `hs` that is not empty. */
  function FirstLongName(hs: seq<Attr>): Option<string> {
    if hs == [] then None
    else if IsLongName(hs[0]) && hs[0].nameInfo.value.name != "" then Some(hs[0].nameInfo.value.name)
    else FirstLongName(hs[1..])
  }

  /** The last short name among `hs`, empty or not. */
  function LastShortName(hs: seq<Attr>): Option<string> {
    if hs == [] then None
    else
      var later := LastShortName(hs[1..]);
      if later.Some? then later
      else if IsShortName(hs[0]) then Some(hs[0].nameInfo.value.name)
      else None
  }

  lemma FirstLongCons(a: Attr, rest: seq<Attr>)
    ensures FirstLongName([a] + rest) ==
      if IsLongName(a) && a.nameInfo.value.name != "" then Some(a.nameInfo.value.name) else FirstLongName(rest)
  {
    assert ([a] + rest)[1..] == rest;
  }

  lemma LastShortCons(a: Attr, rest: seq<Attr>)
    ensures LastShortName([a] + rest) ==
      if LastShortName(rest).Some? then LastShortName(rest)
      else if IsShortName(a) then Some(a.nameInfo.value.name) else None
  {
    assert ([a] + rest)[1..] == rest;
  }

  /**
   * The names the loop settles on when it holds `st` and has the `$FILE_NAME`
   * attributes `hs` still to meet: a truthy long name is kept, else the first
   * non-empty long name of `hs` is taken; the last short name of `hs`
   * replaces the short name; the last reference of `hs` replaces the parent.
   */
  function Settle(st: Names, hs: seq<Attr>): Names {
    Names(if Truthy(st.longName) then st.longName else FirstLongName(hs),
          if LastShortName(hs).Some? then LastShortName(hs) else st.shortName,
          if hs == [] then st.parentRef else Some(hs[|hs| - 1].parentRef))
  }

  /** Visiting one attribute hands its `$FILE_NAME`, if it is one, over to the state. */
  lemma SettleStep(a: Attr, st: Names, rest: seq<Attr>)
    ensures Settle(Visit(a, st), rest) == Settle(st, Head(a) + rest)
  {
    if a.kind == AttrFileName {
      FirstLongCons(a, rest);
      LastShortCons(a, rest);
      var hs := [a] + rest;
      assert hs[|hs| - 1] == if rest == [] then a else rest[|rest| - 1];
    } else {
      assert Head(a) + rest == rest;
    }
  }

  /** Walking from `off` settles the state exactly as meeting the `$FILE_NAME` attributes visited does. */
  lemma {:induction false} WalkSettles(v: seq<Attr>, off: nat, st: Names)
    ensures Settle(NameWalk(v, off, st), []) == Settle(st, FileNamesFrom(v, off))
    decreases |v| - off
  {
    if off < |v| {
      var a := v[off];
      if LeavesAt(a) {
        SettleStep(a, st, []);
        assert Head(a) + [] == Head(a);
      } else {
        WalkSettles(v, off + a.length, Visit(a, st));
        SettleStep(a, st, FileNamesFrom(v, off + a.length));
      }
    }
  }

  /** The name chosen among `$FILE_NAME` attributes: the first non-empty long name, else a non-empty last short name, else "Unknown". */
  function ChosenName(hs: seq<Attr>): string {
    match FirstLongName(hs)
    case Some(n) => n
    case None =>
      var s := LastShortName(hs);
      if Truthy(s) then s.value else "Unknown"
  }

  /** The parent chosen among `$FILE_NAME` attributes: the last one's reference, or None if there is none. */
  function LastParent(hs: seq<Attr>): Option<nat> {
    if hs == [] then None else Some(hs[|hs| - 1].parentRef)
  }

  /** The walk from a fresh state ends with the chosen name and parent of the `$FILE_NAME` attributes it visits. */
  lemma WalkMeaning(v: seq<Attr>, off: nat)
    ensures var w := NameWalk(v, off, NoNames);
      var hs := FileNamesFrom(v, off);
      ResolveName(w) == ChosenName(hs) && w.parentRef == LastParent(hs)
  {
    WalkSettles(v, off, NoNames);
  }

  /** The `$FILE_NAME` attributes `filename` reads, in order. */
  function Headers(data: seq<byte>): seq<Attr> {
    FileNamesFrom(Attrs(data), FirstAttr(data))
  }

  /** The name `filename` promises for a record. */
  function ExpectedName(data: seq<byte>): string { ChosenName(Headers(data)) }

  /** The parent `filename` promises for a record: the last `$FILE_NAME`'s masked reference. */
  function ExpectedParent(data: seq<byte>): Option<nat> { LastParent(Headers(data)) }

  /** What `filename` returns, as the value its loop computes. */
  function ParsedName(data: seq<byte>): (string, Option<nat>) {
    var w := NameWalk(Attrs(data), FirstAttr(data), NoNames);
    (ResolveName(w), w.parentRef)
  }

  /** `filename` returns the name and the parent it promises. */
  lemma ParsedNameMeaning(data: seq<byte>)
    ensures ParsedName(data).0 == ExpectedName(data)
    ensures ParsedName(data).1 == ExpectedParent(data)
  {
    WalkMeaning(Attrs(data), FirstAttr(data));
  }

  /**
   * The `$FILE_NAME` branch of `filename`'s loop body: records the parent
   * reference, then reads the name length (+88), namespace (+89) and name;
   * `readable` is false where one of those two reads raises.
   */
  method ReadFileName(data: seq<byte>, offset: nat, st: Names) returns (r: Names, readable: bool)
    ensures readable <==> offset + 89 < |data|
    ensures r == Absorb(AttrAt(data, offset), st)
  {
    r := st.(parentRef := Some(Field(data, offset + 24, 6) % ParentModulus));
    if offset + 88 >= |data| {
      return r, false;
    }
    var nameLength: nat := data[offset + 88];
    if offset + 89 >= |data| {
      return r, false;
    }
    var nameSpace := data[offset + 89];
    var currentName := Utf16LeDecode(Slice(data, offset + 90, offset + 90 + 2 * nameLength));
    if nameSpace == 1 {
      r := r.(shortName := Some(currentName));
    } else if nameSpace == 0 || nameSpace == 3 {
      if !Truthy(st.longName) {
        r := r.(longName := Some(currentName));
      }
    }
    readable := true;
  }

  /**
   * `filename`: walks the attributes from the first-attribute offset, reading
   * every `$FILE_NAME`, and never raises.
   */
  method Filename(data: seq<byte>) returns (name: string, parent: Option<nat>)
    ensures (name, parent) == ParsedName(data)
  {
    ghost var final := NameWalk(Attrs(data), FirstAttr(data), NoNames);
    var offset := FirstAttr(data);
    var names := NoNames;
    while offset < RecordSize
      invariant NameWalk(Attrs(data), offset, names) == final
      decreases RecordSize - offset
    {
      ghost var before := names;
      var attrType := Field(data, offset, 4);
      if attrType == AttrFileName {
        var readable;
        names, readable := ReadFileName(data, offset, names);
        if !readable {
          WalkLeaves(data, offset, before);
          break;
        }
      } else if attrType == AttrEnd {
        WalkLeaves(data, offset, before);
        break;
      }
      var attrLen := Field(data, offset + 4, 4);
      if attrLen == 0 {
        WalkLeaves(data, offset, before);
        break;
      }
      WalkContinues(data, offset, before, attrLen, names);
      offset := offset + attrLen;
    }
    name := ResolveName(names);
    parent := names.parentRef;
  }
}
