/**
 * Byte-level vocabulary shared by the record decoder and the table builder:
 * bytes, Python's clamping slice, little-endian integers (unsigned and
 * two's complement, as `int.from_bytes(..., 'little')` reads them) and the
 * Python exceptions that the modelled code can raise.
 */
module Bytes {

  type byte = b: int | 0 <= b < 256

  datatype Option<+T> = None | Some(value: T)

  /** The exceptions of the modelled code that change its behaviour. */
  datatype Fault =
    | IndexError      // `data[i]` with `i` past the end
    | SeekError       // `f.seek(p)` with a negative position
    | AttributeError  // a call to a method the object does not define
    | FileNotFoundError  // the looked-up path names no record

  datatype Result<+T> = Ok(value: T) | Err(fault: Fault)

  function Min(a: int, b: int): int { if a <= b then a else b }

  /** Python's `s[lo:hi]` for non-negative bounds: both ends are clamped to the length. */
  function Slice<T>(s: seq<T>, lo: nat, hi: nat): (r: seq<T>)
    ensures |r| == if lo <= hi && lo <= |s| then Min(hi, |s|) - lo else 0
    ensures lo <= hi <= |s| ==> r == s[lo..hi]
  {
    if lo <= hi && lo <= |s| then s[lo..Min(hi, |s|)] else []
  }

  lemma SliceAt<T>(s: seq<T>, lo: nat, hi: nat)
    ensures forall i :: 0 <= i < |Slice(s, lo, hi)| ==> Slice(s, lo, hi)[i] == s[lo + i]
  {
  }

  /** A slice of a slice is a slice of the original, as long as the inner end is not passed. */
  lemma SliceOfSlice<T>(s: seq<T>, a: nat, b: nat, c: nat, d: nat)
    requires a <= b && c <= d && a + d <= b
    ensures Slice(Slice(s, a, b), c, d) == Slice(s, a + c, a + d)
  {
    var inner := Slice(s, a, b);
    var l, r := Slice(inner, c, d), Slice(s, a + c, a + d);
    SliceAt(s, a, b);
    SliceAt(inner, c, d);
    SliceAt(s, a + c, a + d);
    assert |l| == |r|;
    assert forall i :: 0 <= i < |l| ==> l[i] == r[i];
  }

  lemma Associative<T>(a: seq<T>, b: seq<T>, c: seq<T>)
    ensures a + (b + c) == (a + b) + c
  {
  }

  /** A prefix grows by the next element. */
  lemma PrefixSnoc<T>(s: seq<T>, j: nat)
    requires j < |s|
    ensures s[..j + 1] == s[..j] + [s[j]]
  {
  }

  function Pow256(n: nat): (r: nat)
    ensures r >= 1
  {
    if n == 0 then 1 else 256 * Pow256(n - 1)
  }

  /** `int.from_bytes(bs, 'little')`. */
  function LE(bs: seq<byte>): (r: nat)
    ensures r < Pow256(|bs|)
  {
    if |bs| == 0 then 0 else bs[0] + 256 * LE(bs[1..])
  }

  /** `data[i]`, or 0 past the end (a clamped slice simply stops there). */
  function ByteOr0(data: seq<byte>, i: nat): byte { if i < |data| then data[i] else 0 }

  /**
   * The unsigned little-endian integer held in `data[off:off+width]`, where the
   * slice is clamped to the data; `FieldIsLE` ties it to `LE` of that slice.
   */
  function Field(data: seq<byte>, off: nat, width: nat): (r: nat)
    ensures r < Pow256(width)
    decreases width
  {
    if width == 0 then 0
    else
      var rest := Field(data, off + 1, width - 1);
      MulMonotone(256, rest, Pow256(width - 1) - 1);
      ByteOr0(data, off) + 256 * rest
  }

  /** `Field` is `int.from_bytes(data[off:off+width], 'little')`. */
  lemma {:induction false} FieldIsLE(data: seq<byte>, off: nat, width: nat)
    ensures Field(data, off, width) == LE(Slice(data, off, off + width))
    decreases width
  {
    if width > 0 {
      FieldIsLE(data, off + 1, width - 1);
      var bs := Slice(data, off, off + width);
      if off < |data| {
        assert bs[0] == data[off];
        assert bs[1..] == Slice(data, off + 1, off + width);
      } else {
        assert Slice(data, off + 1, off + width) == [];
      }
    }
  }

  lemma {:induction false} PowMonotone(m: nat, n: nat)
    requires m <= n
    ensures Pow256(m) <= Pow256(n)
  {
    if m < n { PowMonotone(m, n - 1); }
  }

  lemma NatProduct(a: nat, b: nat)
    ensures a * b >= 0
  {
  }

  lemma MulMonotone(p: nat, a: nat, b: nat)
    requires a <= b
    ensures p * a <= p * b
  {
  }

  /** The top bit of the last byte decides whether the value reaches half the range. */
  lemma {:induction false} LEHighBit(bs: seq<byte>)
    requires |bs| > 0
    ensures LE(bs) >= Pow256(|bs|) / 2 <==> bs[|bs| - 1] >= 128
  {
    if |bs| == 1 {
      assert bs[1..] == [];
    } else {
      var t := bs[1..];
      LEHighBit(t);
      assert t[|t| - 1] == bs[|bs| - 1];
      var low, rest, q := bs[0], LE(t), Pow256(|t| - 1);
      assert LE(bs) == low + 256 * rest;
      assert Pow256(|t|) / 2 == 128 * q;
      assert Pow256(|bs|) / 2 == 256 * (128 * q);
    }
  }

  /** `int.from_bytes(bs, 'little', signed=True)`: two's complement over `|bs|` bytes. */
  function LESigned(bs: seq<byte>): (r: int)
    ensures |bs| == 0 ==> r == 0
    ensures |bs| > 0 ==> -(Pow256(|bs|) / 2) <= r < Pow256(|bs|) / 2
    ensures |bs| > 0 ==> (r < 0 <==> bs[|bs| - 1] >= 128)
  {
    if |bs| == 0 then 0
    else
      LEHighBit(bs);
      var u := LE(bs);
      if bs[|bs| - 1] >= 128 then u - Pow256(|bs|) else u
  }

  /** `n.to_bytes(w, 'little')`. */
  function EncodeLE(n: nat, w: nat): (r: seq<byte>)
    requires n < Pow256(w)
    ensures |r| == w
  {
    if w == 0 then [] else [n % 256] + EncodeLE(n / 256, w - 1)
  }

  lemma {:induction false} LEOfEncode(n: nat, w: nat)
    requires n < Pow256(w)
    ensures LE(EncodeLE(n, w)) == n
  {
    if w > 0 {
      LEOfEncode(n / 256, w - 1);
      assert EncodeLE(n, w)[1..] == EncodeLE(n / 256, w - 1);
    }
  }

  lemma {:induction false} EncodeOfLE(bs: seq<byte>)
    ensures EncodeLE(LE(bs), |bs|) == bs
  {
    if |bs| > 0 {
      EncodeOfLE(bs[1..]);
      assert LE(bs) % 256 == bs[0] && LE(bs) / 256 == LE(bs[1..]);
    }
  }

  /** `v.to_bytes(w, 'little', signed=True)`. */
  function EncodeSigned(v: int, w: nat): (r: seq<byte>)
    requires w > 0 && -(Pow256(w) / 2) <= v < Pow256(w) / 2
    ensures |r| == w
  {
    EncodeLE(if v < 0 then v + Pow256(w) else v, w)
  }

  lemma SignedRoundTrip(v: int, w: nat)
    requires w > 0 && -(Pow256(w) / 2) <= v < Pow256(w) / 2
    ensures LESigned(EncodeSigned(v, w)) == v
  {
    var n := if v < 0 then v + Pow256(w) else v;
    LEOfEncode(n, w);
    LEHighBit(EncodeSigned(v, w));
  }
}
