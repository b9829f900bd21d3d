/**
 * The `$DATA` attribute walk of `raw_data` in src/helper.py: a resident
 * attribute hands back its content slice; a non-resident one carries a run
 * list whose runs are read from the device one after the other until the
 * declared data size is reached.
 *
 * The device (`\\.\C:` in the source) is the byte image `dev`: seeking to a
 * negative position raises, and a read past the end returns what is there.
 */
module DataRuns {
  import opened Bytes
  import opened Record

  // ------------------------------------------------------ one run header

  /** One run: its length in clusters (unsigned) and its cluster delta (signed). */
  datatype Run = Run(length: nat, delta: int)

  /** What the run list holds at a cursor. */
  datatype RunHeader =
    | HeaderPastEnd                     // reading the header byte raises
    | EndOfRuns                         // a zero header, or a zero length or delta width
    | RunEntry(run: Run, fieldBytes: nat)  // a run whose two fields take `fieldBytes` bytes after the header

  /** The cursor after the run at `c`. */
  function NextRun(c: nat, h: RunHeader): nat
    requires h.RunEntry?
  {
    c + 1 + h.fieldBytes
  }

  /**
   * Decodes the run at `c`: the header's low nibble is the width of the
   * length field, its high nibble the width of the delta field; the length is
   * read unsigned and the delta as two's complement, both little-endian from
   * clamped slices.
   */
  function RunAt(data: seq<byte>, c: nat): (r: RunHeader)
    ensures r.HeaderPastEnd? <==> c >= |data|
    ensures r.EndOfRuns? <==> c < |data| && (data[c] % 16 == 0 || data[c] / 16 == 0)
    ensures r.RunEntry? ==> r.fieldBytes == data[c] % 16 + data[c] / 16
    ensures r.RunEntry? ==> r.run.length < Pow256(data[c] % 16)
  {
    if c >= |data| then HeaderPastEnd
    else
      var h := data[c];
      var lengthWidth, deltaWidth := h % 16, h / 16;
      if h == 0 || lengthWidth == 0 || deltaWidth == 0 then EndOfRuns
      else
        var delta := LESigned(Slice(data, c + 1 + lengthWidth, c + 1 + lengthWidth + deltaWidth));
        RunEntry(Run(Field(data, c + 1, lengthWidth), delta), lengthWidth + deltaWidth)
  }

  /** The bytes of one run with the given field widths (both between 1 and 15). */
  function EncodeRun(run: Run, lengthWidth: nat, deltaWidth: nat): (r: seq<byte>)
    requires 1 <= lengthWidth < 16 && 1 <= deltaWidth < 16
    requires run.length < Pow256(lengthWidth)
    requires -(Pow256(deltaWidth) / 2) <= run.delta < Pow256(deltaWidth) / 2
    ensures |r| == 1 + lengthWidth + deltaWidth
  {
    [deltaWidth * 16 + lengthWidth] + EncodeLE(run.length, lengthWidth) + EncodeSigned(run.delta, deltaWidth)
  }

  lemma FieldOfEncoded(data: seq<byte>, off: nat, n: nat, w: nat)
    requires n < Pow256(w) && off + w <= |data| && data[off..off + w] == EncodeLE(n, w)
    ensures Field(data, off, w) == n
  {
    FieldIsLE(data, off, w);
    LEOfEncode(n, w);
  }

  lemma SignedOfEncoded(data: seq<byte>, off: nat, v: int, w: nat)
    requires w > 0 && -(Pow256(w) / 2) <= v < Pow256(w) / 2
    requires off + w <= |data| && data[off..off + w] == EncodeSigned(v, w)
    ensures LESigned(Slice(data, off, off + w)) == v
  {
    SignedRoundTrip(v, w);
  }

  /** The header byte `deltaWidth * 16 + lengthWidth` splits back into its two nibbles. */
  lemma Nibbles(h: nat, lengthWidth: nat, deltaWidth: nat)
    requires lengthWidth < 16 && h == deltaWidth * 16 + lengthWidth
    ensures h % 16 == lengthWidth && h / 16 == deltaWidth
  {
  }

  /** A header with non-zero nibbles decodes its two fields from just after it. */
  lemma RunAtEntry(data: seq<byte>, c: nat, lengthWidth: nat, deltaWidth: nat, run: Run)
    requires c < |data| && data[c] % 16 == lengthWidth && data[c] / 16 == deltaWidth
    requires lengthWidth >= 1 && deltaWidth >= 1
    requires Field(data, c + 1, lengthWidth) == run.length
    requires LESigned(Slice(data, c + 1 + lengthWidth, c + 1 + lengthWidth + deltaWidth)) == run.delta
    ensures RunAt(data, c) == RunEntry(run, lengthWidth + deltaWidth)
  {
  }

  lemma Parts<T>(x: T, a: seq<T>, b: seq<T>)
    ensures ([x] + a + b)[0] == x
    ensures ([x] + a + b)[1..1 + |a|] == a
    ensures ([x] + a + b)[1 + |a|..] == b
  {
  }

  lemma SubSlice<T>(s: seq<T>, a: nat, b: nat, i: nat, j: nat)
    requires a <= b <= |s| && i <= j <= b - a
    ensures s[a..b][i..j] == s[a + i..a + j]
  {
    var l, r := s[a..b][i..j], s[a + i..a + j];
    assert |l| == |r|;
    forall k | 0 <= k < |l|
      ensures l[k] == r[k]
    {
      assert l[k] == s[a..b][i + k] == s[a + i + k];
    }
  }

  /** The three parts of an encoded run sit at the header, after it, and after the length field. */
  lemma RunParts(data: seq<byte>, c: nat, h: byte, lengthBytes: seq<byte>, deltaBytes: seq<byte>)
    requires c + 1 + |lengthBytes| + |deltaBytes| <= |data|
    requires data[c..c + 1 + |lengthBytes| + |deltaBytes|] == [h] + lengthBytes + deltaBytes
    ensures data[c] == h
    ensures data[c + 1..c + 1 + |lengthBytes|] == lengthBytes
    ensures data[c + 1 + |lengthBytes|..c + 1 + |lengthBytes| + |deltaBytes|] == deltaBytes
  {
    var m, e := c + 1 + |lengthBytes|, c + 1 + |lengthBytes| + |deltaBytes|;
    var seg := data[c..e];
    Parts(h, lengthBytes, deltaBytes);
    assert data[c] == seg[0];
    SubSlice(data, c, e, 1, 1 + |lengthBytes|);
    SubSlice(data, c, e, 1 + |lengthBytes|, e - c);
    assert seg[1 + |lengthBytes|..] == seg[1 + |lengthBytes|..e - c];
  }

  /** A header, a length field and a delta field laid out one after the other decode to their run. */
  lemma RunFromParts(data: seq<byte>, c: nat, run: Run, lengthWidth: nat, deltaWidth: nat)
    requires 1 <= lengthWidth < 16 && 1 <= deltaWidth < 16
    requires run.length < Pow256(lengthWidth)
    requires -(Pow256(deltaWidth) / 2) <= run.delta < Pow256(deltaWidth) / 2
    requires c + 1 + lengthWidth + deltaWidth <= |data|
    requires data[c] == deltaWidth * 16 + lengthWidth
    requires data[c + 1..c + 1 + lengthWidth] == EncodeLE(run.length, lengthWidth)
    requires data[c + 1 + lengthWidth..c + 1 + lengthWidth + deltaWidth] == EncodeSigned(run.delta, deltaWidth)
    ensures RunAt(data, c) == RunEntry(run, lengthWidth + deltaWidth)
  {
    Nibbles(data[c], lengthWidth, deltaWidth);
    FieldOfEncoded(data, c + 1, run.length, lengthWidth);
    SignedOfEncoded(data, c + 1 + lengthWidth, run.delta, deltaWidth);
    RunAtEntry(data, c, lengthWidth, deltaWidth, run);
  }

  /** A run written with any admissible widths decodes back to itself. */
  lemma RunRoundTrip(data: seq<byte>, c: nat, run: Run, lengthWidth: nat, deltaWidth: nat)
    requires 1 <= lengthWidth < 16 && 1 <= deltaWidth < 16
    requires run.length < Pow256(lengthWidth)
    requires -(Pow256(deltaWidth) / 2) <= run.delta < Pow256(deltaWidth) / 2
    requires c + 1 + lengthWidth + deltaWidth <= |data|
    requires data[c..c + 1 + lengthWidth + deltaWidth] == EncodeRun(run, lengthWidth, deltaWidth)
    ensures RunAt(data, c) == RunEntry(run, lengthWidth + deltaWidth)
  {
    RunParts(data, c, deltaWidth * 16 + lengthWidth, EncodeLE(run.length, lengthWidth), EncodeSigned(run.delta, deltaWidth));
    RunFromParts(data, c, run, lengthWidth, deltaWidth);
  }

  /** The run header at every cursor position the run loop can stand on: 0 up to 1023. */
  function RunsView(data: seq<byte>): (rv: seq<RunHeader>)
    ensures |rv| == RecordSize
  {
    seq(RecordSize, c requires 0 <= c => RunAt(data, c))
  }

  lemma RunsViewAt(data: seq<byte>, c: nat)
    requires c < RecordSize
    ensures RunsView(data)[c] == RunAt(data, c)
  {
  }

  // --------------------------------------------------- the whole run list

  /** How decoding the run list ends: at a stop (or past the record) or by a raising header read. */
  datatype RunTail = Ended | Raised

  datatype Decoded = Decoded(runs: seq<Run>, tail: RunTail)

  /** The runs from cursor `c` up to the first stop, with how the list ends. */
  function RunList(rv: seq<RunHeader>, c: nat): Decoded
    decreases |rv| - c
  {
    if c >= |rv| then Decoded([], Ended)
    else
      match rv[c]
      case HeaderPastEnd => Decoded([], Raised)
      case EndOfRuns => Decoded([], Ended)
      case RunEntry(run, _) =>
        var rest := RunList(rv, NextRun(c, rv[c]));
        Decoded([run] + rest.runs, rest.tail)
  }

  /** The absolute cluster of each run: the running sum of the deltas, from `abs`. */
  function Starts(runs: seq<Run>, abs: int): (r: seq<int>)
    ensures |r| == |runs|
  {
    if runs == [] then [] else [abs + runs[0].delta] + Starts(runs[1..], abs + runs[0].delta)
  }

  /** Deltas +10 then -4 (header 0x11 each) put the runs at clusters 10 and 6. */
  lemma ExampleRunList(data: seq<byte>)
    requires |data| >= 7 && data[..7] == [0x11, 0x01, 0x0A, 0x11, 0x01, 0xFC, 0x00]
    ensures RunList(RunsView(data), 0) == Decoded([Run(1, 10), Run(1, -4)], Ended)
    ensures Starts(RunList(RunsView(data), 0).runs, 0) == [10, 6]
  {
    var rv := RunsView(data);
    assert data[0..3] == EncodeRun(Run(1, 10), 1, 1);
    RunRoundTrip(data, 0, Run(1, 10), 1, 1);
    assert EncodeSigned(-4, 1) == [0xFC];
    assert data[3..6] == EncodeRun(Run(1, -4), 1, 1);
    RunRoundTrip(data, 3, Run(1, -4), 1, 1);
    RunsViewAt(data, 0);
    RunsViewAt(data, 3);
    RunsViewAt(data, 6);
    assert rv[6] == EndOfRuns;
    assert RunList(rv, 6) == Decoded([], Ended);
    assert RunList(rv, 3) == Decoded([Run(1, -4)], Ended);
    assert Starts([Run(1, -4)], 10) == [6];
  }

  // ------------------------------------------------- reading the runs

  /** `f.seek(pos)` then `f.read(n)`: what the device holds there, short at its end. */
  function ReadAt(dev: seq<byte>, pos: nat, n: nat): seq<byte> {
    Slice(dev, pos, pos + n)
  }

  /** How the run loop ends: with the data, by falling out (the attribute walk goes on), or raising. */
  datatype RunOutcome = Done(bytes: seq<byte>) | Exhausted | Failed(fault: Fault)

  /**
   * The run loop as the source interleaves it: decode a run, move the
   * absolute cluster, seek, read, and return the first `size` bytes once
   * `size` bytes have been read.
   */
  function RunWalk(rv: seq<RunHeader>, dev: seq<byte>, cs: nat, size: nat, c: nat, abs: int, acc: seq<byte>): RunOutcome
    decreases |rv| - c
  {
    if c >= |rv| then Exhausted
    else
      match rv[c]
      case HeaderPastEnd => Failed(IndexError)
      case EndOfRuns => Exhausted
      case RunEntry(run, _) =>
        var at := abs + run.delta;
        if at * cs < 0 then Failed(SeekError)
        else
          var read := acc + ReadAt(dev, at * cs, run.length * cs);
          if |read| >= size then Done(read[..size])
          else RunWalk(rv, dev, cs, size, NextRun(c, rv[c]), at, read)
  }

  /** Reading an already decoded run list, run by run, from absolute cluster `abs`. */
  function ReadRuns(dev: seq<byte>, cs: nat, size: nat, runs: seq<Run>, abs: int, acc: seq<byte>): RunOutcome {
    if runs == [] then Exhausted
    else
      var at := abs + runs[0].delta;
      if at * cs < 0 then Failed(SeekError)
      else
        var read := acc + ReadAt(dev, at * cs, runs[0].length * cs);
        if |read| >= size then Done(read[..size])
        else ReadRuns(dev, cs, size, runs[1..], at, read)
  }

  /** A fall-out of a list that ended by a raising header read raises. */
  function Finish(r: RunOutcome, tail: RunTail): RunOutcome {
    if r.Exhausted? && tail == Raised then Failed(IndexError) else r
  }

  /** The interleaved loop is decoding the whole run list first and then reading it. */
  lemma {:induction false} RunWalkDecodesThenReads(rv: seq<RunHeader>, dev: seq<byte>, cs: nat, size: nat, c: nat, abs: int, acc: seq<byte>)
    ensures var d := RunList(rv, c);
      RunWalk(rv, dev, cs, size, c, abs, acc) == Finish(ReadRuns(dev, cs, size, d.runs, abs, acc), d.tail)
    decreases |rv| - c
  {
    if c < |rv| && rv[c].RunEntry? {
      var run, next := rv[c].run, NextRun(c, rv[c]);
      var rest := RunList(rv, next);
      assert RunList(rv, c).runs == [run] + rest.runs;
      assert ([run] + rest.runs)[1..] == rest.runs;
      var at := abs + run.delta;
      if at * cs >= 0 {
        RunWalkDecodesThenReads(rv, dev, cs, size, next, at, acc + ReadAt(dev, at * cs, run.length * cs));
      }
    }
  }

  /** Every run of the list seeks to a non-negative position. */
  predicate SeeksOk(runs: seq<Run>, abs: int, cs: nat) {
    forall i :: 0 <= i < |runs| ==> Starts(runs, abs)[i] * cs >= 0
  }

  /** All the runs' reads, concatenated in list order (a run that cannot be sought reads nothing). */
  function Gather(dev: seq<byte>, cs: nat, runs: seq<Run>, abs: int): seq<byte> {
    if runs == [] then []
    else
      var at := abs + runs[0].delta;
      (if at * cs < 0 then [] else ReadAt(dev, at * cs, runs[0].length * cs)) + Gather(dev, cs, runs[1..], at)
  }

  lemma SeeksOkCons(runs: seq<Run>, abs: int, cs: nat)
    requires runs != []
    ensures var at := abs + runs[0].delta;
      SeeksOk(runs, abs, cs) <==> at * cs >= 0 && SeeksOk(runs[1..], at, cs)
  {
    var at := abs + runs[0].delta;
    var ss, later := Starts(runs, abs), Starts(runs[1..], at);
    assert ss == [at] + later;
    if at * cs >= 0 && SeeksOk(runs[1..], at, cs) {
      forall i | 0 <= i < |runs|
        ensures ss[i] * cs >= 0
      {
        if i > 0 { assert ss[i] == later[i - 1]; }
      }
    }
    if SeeksOk(runs, abs, cs) {
      assert ss[0] * cs >= 0;
      forall i | 0 <= i < |runs| - 1
        ensures later[i] * cs >= 0
      {
        assert ss[i + 1] == later[i];
      }
    }
  }

  /**
   * Reading the runs returns exactly `size` bytes, the prefix of all the
   * runs' reads, and does so whenever every seek succeeds and the reads
   * reach `size`.
   */
  lemma {:induction false} ReadRunsCompletes(dev: seq<byte>, cs: nat, size: nat, runs: seq<Run>, abs: int, acc: seq<byte>)
    ensures var r := ReadRuns(dev, cs, size, runs, abs, acc);
      var all := acc + Gather(dev, cs, runs, abs);
      && (r.Done? ==> |r.bytes| == size && |all| >= size && r.bytes == all[..size])
      && (SeeksOk(runs, abs, cs) && runs != [] && |all| >= size ==> r.Done?)
    decreases |runs|
  {
    if runs != [] {
      SeeksOkCons(runs, abs, cs);
      var at := abs + runs[0].delta;
      if at * cs >= 0 {
        var here := ReadAt(dev, at * cs, runs[0].length * cs);
        var read := acc + here;
        var later := Gather(dev, cs, runs[1..], at);
        assert Gather(dev, cs, runs, abs) == here + later;
        Associative(acc, here, later);
        ReadRunsCompletes(dev, cs, size, runs[1..], at, read);
        if |read| >= size {
          PrefixOfLonger(read, later, size);
        }
      }
    }
  }

  lemma PrefixOfLonger<T>(a: seq<T>, b: seq<T>, n: nat)
    requires n <= |a|
    ensures (a + b)[..n] == a[..n]
  {
  }

  /**
   * Reading the runs raises only on a negative seek, and falls out only when
   * every seek succeeds and the reads stay short of `size` (or there is no run).
   */
  lemma {:induction false} ReadRunsFallsShort(dev: seq<byte>, cs: nat, size: nat, runs: seq<Run>, abs: int, acc: seq<byte>)
    ensures var r := ReadRuns(dev, cs, size, runs, abs, acc);
      var all := acc + Gather(dev, cs, runs, abs);
      && (r.Failed? ==> r.fault == SeekError && !SeeksOk(runs, abs, cs))
      && (r.Exhausted? ==> SeeksOk(runs, abs, cs) && (runs == [] || |all| < size))
    decreases |runs|
  {
    if runs != [] {
      SeeksOkCons(runs, abs, cs);
      var at := abs + runs[0].delta;
      if at * cs >= 0 {
        var here := ReadAt(dev, at * cs, runs[0].length * cs);
        var read := acc + here;
        var later := Gather(dev, cs, runs[1..], at);
        assert Gather(dev, cs, runs, abs) == here + later;
        Associative(acc, here, later);
        ReadRunsFallsShort(dev, cs, size, runs[1..], at, read);
      }
    }
  }

  /** The run loop leaves at the header at `c` without reading a run. */
  lemma RunLeaves(data: seq<byte>, dev: seq<byte>, cs: nat, size: nat, c: nat, abs: int, acc: seq<byte>)
    requires c < RecordSize && !RunAt(data, c).RunEntry?
    ensures RunWalk(RunsView(data), dev, cs, size, c, abs, acc) ==
      if RunAt(data, c).HeaderPastEnd? then Failed(IndexError) else Exhausted
  {
    RunsViewAt(data, c);
  }

  /** One run of the loop: decoded at `c` as `h`, sought at byte `pos`, read for `n` bytes. */
  lemma RunStep(data: seq<byte>, dev: seq<byte>, cs: nat, size: nat, c: nat, abs: int, acc: seq<byte>,
                h: RunHeader, at: int, pos: int, n: nat)
    requires c < RecordSize && h == RunAt(data, c) && h.RunEntry?
    requires at == abs + h.run.delta && pos == at * cs && n == h.run.length * cs
    ensures RunWalk(RunsView(data), dev, cs, size, c, abs, acc) ==
      if pos < 0 then Failed(SeekError)
      else
        var read := acc + ReadAt(dev, pos, n);
        if |read| >= size then Done(read[..size]) else RunWalk(RunsView(data), dev, cs, size, NextRun(c, h), at, read)
  {
    RunsViewAt(data, c);
  }

  /** Reads the run header at `c` byte by byte, as the loop body of `raw_data` does. */
  method DecodeRun(data: seq<byte>, c: nat) returns (h: RunHeader)
    ensures h == RunAt(data, c)
  {
    if c >= |data| {
      return HeaderPastEnd;
    }
    var header := data[c];
    if header == 0 {
      return EndOfRuns;
    }
    var lengthSize := header % 16;
    var offsetSize := header / 16;
    if lengthSize == 0 || offsetSize == 0 {
      return EndOfRuns;
    }
    var runLength := Field(data, c + 1, lengthSize);
    var offsetBytes := Slice(data, c + 1 + lengthSize, c + 1 + lengthSize + offsetSize);
    var runOffset := LESigned(offsetBytes);
    h := RunEntry(Run(runLength, runOffset), lengthSize + offsetSize);
  }

  /** The inner loop of `raw_data`: the run list from `start`, read until `size` bytes are in. */
  method FollowRuns(data: seq<byte>, dev: seq<byte>, cs: nat, size: nat, start: nat) returns (r: RunOutcome)
    ensures r == RunWalk(RunsView(data), dev, cs, size, start, 0, [])
  {
    ghost var final := RunWalk(RunsView(data), dev, cs, size, start, 0, []);
    var current := start;
    var absolute: int := 0;
    var read: seq<byte> := [];
    while current < RecordSize
      invariant RunWalk(RunsView(data), dev, cs, size, current, absolute, read) == final
      decreases RecordSize - current
    {
      var h := DecodeRun(data, current);
      if !h.RunEntry? {
        RunLeaves(data, dev, cs, size, current, absolute, read);
        return if h.HeaderPastEnd? then Failed(IndexError) else Exhausted;
      }
      var at := absolute + h.run.delta;
      var pos := at * cs;
      NatProduct(h.run.length, cs);
      var n := h.run.length * cs;
      RunStep(data, dev, cs, size, current, absolute, read, h, at, pos, n);
      current := NextRun(current, h);
      absolute := at;
      if pos < 0 {
        return Failed(SeekError);
      }
      read := read + ReadAt(dev, pos, n);
      if |read| >= size {
        return Done(read[..size]);
      }
    }
    return Exhausted;
  }

  // ------------------------------------------------- the attribute walk

  /**
   * What the `$DATA` walk reads at a cursor: the type, the length at +4, the
   * non-resident flag at +8 (None where reading it raises), the resident
   * content (`content_size` at +16 bytes from `content_offset` at +20, as a
   * clamped slice), the start of the run list (run offset at +32) and the
   * data size at +48.
   */
  datatype DataAttr = DataAttr(kind: nat, length: nat, flag: Option<byte>, content: seq<byte>, runStart: nat, dataSize: nat)

  function DataAttrAt(data: seq<byte>, off: nat): (a: DataAttr)
    ensures a.flag.Some? <==> off + 8 < |data|
  {
    var start := off + Field(data, off + 20, 2);
    DataAttr(Field(data, off, 4), Field(data, off + 4, 4), if off + 8 < |data| then Some(data[off + 8]) else None,
             Slice(data, start, start + Field(data, off + 16, 4)), off + Field(data, off + 32, 2), Field(data, off + 48, 8))
  }

  /** The `$DATA` view of the attribute at every cursor position below 1024. */
  function DataAttrs(data: seq<byte>): (av: seq<DataAttr>)
    ensures |av| == RecordSize
  {
    seq(RecordSize, i requires 0 <= i => DataAttrAt(data, i))
  }

  lemma DataAttrsAt(data: seq<byte>, i: nat)
    requires i < RecordSize
    ensures DataAttrs(data)[i] == DataAttrAt(data, i)
  {
  }

  /** What the attribute `a` decides, if it is a `$DATA` that returns or raises. */
  function DataHere(a: DataAttr, rv: seq<RunHeader>, dev: seq<byte>, cs: nat): Option<Result<seq<byte>>> {
    if a.kind != AttrData then None
    else if a.flag.None? then Some(Err(IndexError))
    else if a.flag.value == 0 then Some(Ok(a.content))
    else
      match RunWalk(rv, dev, cs, a.dataSize, a.runStart, 0, [])
      case Done(b) => Some(Ok(b))
      case Failed(f) => Some(Err(f))
      case Exhausted => None
  }

  /** `raw_data` from cursor `off`: what the first deciding `$DATA` decides, else b''. */
  function DataWalk(av: seq<DataAttr>, rv: seq<RunHeader>, dev: seq<byte>, cs: nat, off: nat): Result<seq<byte>>
    decreases |av| - off
  {
    if off >= |av| then Ok([])
    else
      var here := DataHere(av[off], rv, dev, cs);
      if here.Some? then here.value
      else if av[off].kind == AttrEnd || av[off].length == 0 then Ok([])
      else DataWalk(av, rv, dev, cs, off + av[off].length)
  }

  /** What `raw_data` returns for a record, read against the device image `dev`. */
  function RawDataOf(data: seq<byte>, dev: seq<byte>, cs: nat): Result<seq<byte>> {
    DataWalk(DataAttrs(data), RunsView(data), dev, cs, FirstAttr(data))
  }

  /** The bytes of a resident `$DATA` header at `off` as the `$DATA` view reads them. */
  lemma ResidentAttr(data: seq<byte>, off: nat, content: seq<byte>)
    requires Field(data, off, 4) == AttrData && off + 8 < |data| && data[off + 8] == 0
    requires Field(data, off + 16, 4) == |content|
    requires var start := off + Field(data, off + 20, 2);
      start + |content| <= |data| && data[start..start + |content|] == content
    ensures var a := DataAttrAt(data, off);
      a.kind == AttrData && a.flag == Some(0) && a.content == content
  {
  }

  /** A record whose first attribute is a resident `$DATA` holding `content` returns `content`. */
  lemma ResidentRoundTrip(data: seq<byte>, dev: seq<byte>, cs: nat, content: seq<byte>)
    requires FirstAttr(data) < RecordSize
    requires var off := FirstAttr(data);
      && Field(data, off, 4) == AttrData && off + 8 < |data| && data[off + 8] == 0
      && Field(data, off + 16, 4) == |content|
      && var start := off + Field(data, off + 20, 2);
         start + |content| <= |data| && data[start..start + |content|] == content
    ensures RawDataOf(data, dev, cs) == Ok(content)
  {
    var off := FirstAttr(data);
    DataAttrsAt(data, off);
    ResidentAttr(data, off, content);
    var a := DataAttrAt(data, off);
    assert DataHere(a, RunsView(data), dev, cs) == Some(Ok(content));
  }

  /**
   * A non-resident `$DATA` at `off` returns the prefix of its runs' reads
   * when they reach the data size with every seek succeeding; otherwise it
   * raises on a negative seek or returns `size` bytes read before it; when
   * the reads stay short, it raises if the run list ran into the end of the
   * record bytes and otherwise lets the walk go on to the next attribute.
   */
  lemma NonResidentReads(av: seq<DataAttr>, rv: seq<RunHeader>, dev: seq<byte>, cs: nat, off: nat)
    requires off < |av| && av[off].kind == AttrData && av[off].flag.Some? && av[off].flag.value != 0
    ensures var a := av[off];
      var d := RunList(rv, a.runStart);
      var all := Gather(dev, cs, d.runs, 0);
      var w := DataWalk(av, rv, dev, cs, off);
      && (SeeksOk(d.runs, 0, cs) && d.runs != [] && |all| >= a.dataSize ==> w == Ok(all[..a.dataSize]))
      && (!SeeksOk(d.runs, 0, cs) ==> w == Err(SeekError) || (|all| >= a.dataSize && w == Ok(all[..a.dataSize])))
      && (SeeksOk(d.runs, 0, cs) && (d.runs == [] || |all| < a.dataSize) ==>
            w == if d.tail == Raised then Err(IndexError)
                 else if a.length == 0 then Ok([])
                 else DataWalk(av, rv, dev, cs, off + a.length))
  {
    var a := av[off];
    var d := RunList(rv, a.runStart);
    RunWalkDecodesThenReads(rv, dev, cs, a.dataSize, a.runStart, 0, []);
    ReadRunsCompletes(dev, cs, a.dataSize, d.runs, 0, []);
    ReadRunsFallsShort(dev, cs, a.dataSize, d.runs, 0, []);
    assert [] + Gather(dev, cs, d.runs, 0) == Gather(dev, cs, d.runs, 0);
  }

  /** The attribute walk leaves at `off` with what `DataHere` decides, or b''. */
  lemma DataLeaves(data: seq<byte>, dev: seq<byte>, cs: nat, off: nat)
    requires off < RecordSize
    ensures var a := DataAttrAt(data, off);
      var here := DataHere(a, RunsView(data), dev, cs);
      here.Some? ==> DataWalk(DataAttrs(data), RunsView(data), dev, cs, off) == here.value
    ensures var a := DataAttrAt(data, off);
      var here := DataHere(a, RunsView(data), dev, cs);
      here.None? && (a.kind == AttrEnd || a.length == 0) ==>
        DataWalk(DataAttrs(data), RunsView(data), dev, cs, off) == Ok([])
    ensures var a := DataAttrAt(data, off);
      var here := DataHere(a, RunsView(data), dev, cs);
      here.None? && a.kind != AttrEnd && a.length != 0 ==>
        DataWalk(DataAttrs(data), RunsView(data), dev, cs, off) ==
          DataWalk(DataAttrs(data), RunsView(data), dev, cs, off + a.length)
  {
    DataAttrsAt(data, off);
  }

  /** The body of `raw_data` for a `$DATA` attribute at `offset`: what it returns or raises, or None to go on. */
  method ReadDataAttr(data: seq<byte>, dev: seq<byte>, cs: nat, offset: nat) returns (here: Option<Result<seq<byte>>>)
    requires Field(data, offset, 4) == AttrData
    ensures here == DataHere(DataAttrAt(data, offset), RunsView(data), dev, cs)
  {
    if offset + 8 >= |data| {
      return Some(Err(IndexError));
    }
    var nonResFlag := data[offset + 8];
    if nonResFlag == 0 {
      var contentSize := Field(data, offset + 16, 4);
      var contentOffset := Field(data, offset + 20, 2);
      return Some(Ok(Slice(data, offset + contentOffset, offset + contentOffset + contentSize)));
    }
    var runOffset := Field(data, offset + 32, 2);
    var dataSize := Field(data, offset + 48, 8);
    var outcome := FollowRuns(data, dev, cs, dataSize, offset + runOffset);
    match outcome
    case Done(b) => return Some(Ok(b));
    case Failed(f) => return Some(Err(f));
    case Exhausted => return None;
  }

  /**
   * One pass of the attribute loop of `raw_data` at `offset`: either the walk
   * ends here with `r`, or it goes on at the later cursor `next`.
   */
  method DataWalkStep(data: seq<byte>, dev: seq<byte>, cs: nat, offset: nat) returns (done: bool, r: Result<seq<byte>>, next: nat)
    requires offset < RecordSize
    ensures done ==> r == DataWalk(DataAttrs(data), RunsView(data), dev, cs, offset)
    ensures !done ==> offset < next && DataWalk(DataAttrs(data), RunsView(data), dev, cs, next) == DataWalk(DataAttrs(data), RunsView(data), dev, cs, offset)
  {
    ghost var a := DataAttrAt(data, offset);
    DataLeaves(data, dev, cs, offset);
    var attrType := Field(data, offset, 4);
    assert attrType == a.kind;
    if attrType == AttrData {
      var here := ReadDataAttr(data, dev, cs, offset);
      if here.Some? {
        return true, here.value, offset;
      }
    } else if attrType == AttrEnd {
      return true, Ok([]), offset;
    }
    var attrLen := Field(data, offset + 4, 4);
    assert attrLen == a.length;
    if attrLen == 0 {
      return true, Ok([]), offset;
    }
    return false, Ok([]), offset + attrLen;
  }

  /** `raw_data`: the attribute walk over the record, with the run loop for non-resident data. */
  method RawData(entry: MftEntry, dev: seq<byte>) returns (r: Result<seq<byte>>)
    ensures r == RawDataOf(entry.data, dev, entry.clusterSize)
  {
    var data, cs := entry.data, entry.clusterSize;
    ghost var av, rv := DataAttrs(data), RunsView(data);
    ghost var final := RawDataOf(data, dev, cs);
    var offset := FirstAttr(data);
    while offset < RecordSize
      invariant DataWalk(av, rv, dev, cs, offset) == final
      decreases RecordSize - offset
    {
      var done, here, next := DataWalkStep(data, dev, cs, offset);
      if done {
        return here;
      }
      offset := next;
    }
    return Ok([]);
  }
}
