/** Field encodings for the DRPC messages: fixed-width integers, least
    significant byte first, with signed values in two's complement, and byte
    vectors written as their length (a 64-bit `usize`) followed by the bytes.
    A decoder takes a buffer and returns the value and the unread rest, or
    nothing when the buffer is too short. */
module Wire {
  import opened Ints

  datatype Option<+T> = None | Some(value: T) {
    predicate IsFailure() { None? }

    function PropagateFailure<U>(): Option<U>
      requires None?
    {
      None
    }

    function Extract(): T
      requires Some?
    {
      value
    }
  }

  /** A decoded value with the bytes that follow it. */
  type Decoded<T> = Option<(T, seq<u8>)>

  /** A `Vec<u8>`: its length fits a `usize`. */
  type Bytes = s: seq<u8> | |s| < 0x1_0000_0000_0000_0000

  function Pow256(w: nat): (p: nat)
    ensures p > 0
  {
    if w == 0 then 1 else 256 * Pow256(w - 1)
  }

  lemma Pow256Widths()
    ensures Pow256(4) == 0x1_0000_0000
    ensures Pow256(8) == 0x1_0000_0000_0000_0000
  {
  }

  /** `x` as `width` bytes, least significant first. */
  function EncodeLE(x: nat, width: nat): (r: seq<u8>)
    requires x < Pow256(width)
    ensures |r| == width
  {
    if width == 0 then [] else [x % 256] + EncodeLE(x / 256, width - 1)
  }

  /** The number whose bytes, least significant first, are `bs`. */
  function DecodeLE(bs: seq<u8>): (x: nat)
    ensures x < Pow256(|bs|)
  {
    if bs == [] then 0 else bs[0] + 256 * DecodeLE(bs[1..])
  }

  lemma {:induction false} DecodeEncodeLE(x: nat, width: nat)
    requires x < Pow256(width)
    ensures DecodeLE(EncodeLE(x, width)) == x
  {
    if width > 0 {
      DecodeEncodeLE(x / 256, width - 1);
      assert EncodeLE(x, width)[1..] == EncodeLE(x / 256, width - 1);
    }
  }

  lemma {:induction false} EncodeDecodeLE(bs: seq<u8>)
    ensures EncodeLE(DecodeLE(bs), |bs|) == bs
  {
    if bs != [] {
      EncodeDecodeLE(bs[1..]);
      assert DecodeLE(bs) / 256 == DecodeLE(bs[1..]);
    }
  }

  // ---------------------------------------------------------------------------
  // Fixed-width fields

  function EncodeU32(x: u32): (r: seq<u8>)
    ensures |r| == 4
  {
    Pow256Widths();
    EncodeLE(x, 4)
  }

  function DecodeU32(s: seq<u8>): Decoded<u32>
  {
    if |s| < 4 then None
    else
      Pow256Widths();
      Some((DecodeLE(s[..4]), s[4..]))
  }

  function EncodeUsize(x: usize): (r: seq<u8>)
    ensures |r| == 8
  {
    Pow256Widths();
    EncodeLE(x, 8)
  }

  function DecodeUsize(s: seq<u8>): Decoded<usize>
  {
    if |s| < 8 then None
    else
      Pow256Widths();
      Some((DecodeLE(s[..8]), s[8..]))
  }

  function EncodeI32(x: i32): (r: seq<u8>)
    ensures |r| == 4
  {
    Pow256Widths();
    EncodeLE(if x < 0 then x + 0x1_0000_0000 else x, 4)
  }

  function DecodeI32(s: seq<u8>): Decoded<i32>
  {
    if |s| < 4 then None
    else
      Pow256Widths();
      var u := DecodeLE(s[..4]);
      Some((if u >= 0x8000_0000 then u - 0x1_0000_0000 else u, s[4..]))
  }

  function EncodeI64(x: i64): (r: seq<u8>)
    ensures |r| == 8
  {
    Pow256Widths();
    EncodeLE(if x < 0 then x + 0x1_0000_0000_0000_0000 else x, 8)
  }

  function DecodeI64(s: seq<u8>): Decoded<i64>
  {
    if |s| < 8 then None
    else
      Pow256Widths();
      var u := DecodeLE(s[..8]);
      Some((if u >= 0x8000_0000_0000_0000 then u - 0x1_0000_0000_0000_0000 else u, s[8..]))
  }

  /** A byte vector: its length, then its bytes. */
  function EncodeBytes(b: Bytes): (r: seq<u8>)
    ensures |r| == 8 + |b|
  {
    EncodeUsize(|b|) + b
  }

  /** Reads the length, then refuses a buffer holding fewer bytes than that. */
  function DecodeBytes(s: seq<u8>): Decoded<Bytes>
  {
    var n :- DecodeUsize(s);
    if |n.1| < n.0 then None else Some((n.1[..n.0], n.1[n.0..]))
  }

  // ---------------------------------------------------------------------------
  // Each field decoder reads back what its encoder wrote and leaves the rest
  // of the buffer untouched; it consumes exactly an encoding; and it refuses
  // every proper prefix of an encoding.

  lemma U32RoundTrip(x: u32, rest: seq<u8>)
    ensures DecodeU32(EncodeU32(x) + rest) == Some((x, rest))
  {
    Pow256Widths();
    var e := EncodeU32(x);
    assert (e + rest)[..4] == e && (e + rest)[4..] == rest;
    DecodeEncodeLE(x, 4);
  }

  lemma U32Exact(s: seq<u8>)
    ensures DecodeU32(s).Some? ==> s == EncodeU32(DecodeU32(s).value.0) + DecodeU32(s).value.1
  {
    if |s| >= 4 {
      EncodeDecodeLE(s[..4]);
      assert s == s[..4] + s[4..];
    }
  }

  lemma U32Truncated(x: u32, k: nat)
    requires k < |EncodeU32(x)|
    ensures DecodeU32(EncodeU32(x)[..k]) == None
  {
  }

  lemma UsizeRoundTrip(x: usize, rest: seq<u8>)
    ensures DecodeUsize(EncodeUsize(x) + rest) == Some((x, rest))
  {
    Pow256Widths();
    var e := EncodeUsize(x);
    assert (e + rest)[..8] == e && (e + rest)[8..] == rest;
    DecodeEncodeLE(x, 8);
  }

  lemma UsizeExact(s: seq<u8>)
    ensures DecodeUsize(s).Some? ==> s == EncodeUsize(DecodeUsize(s).value.0) + DecodeUsize(s).value.1
  {
    if |s| >= 8 {
      EncodeDecodeLE(s[..8]);
      assert s == s[..8] + s[8..];
    }
  }

  lemma UsizeTruncated(x: usize, k: nat)
    requires k < |EncodeUsize(x)|
    ensures DecodeUsize(EncodeUsize(x)[..k]) == None
  {
  }

  lemma I32RoundTrip(x: i32, rest: seq<u8>)
    ensures DecodeI32(EncodeI32(x) + rest) == Some((x, rest))
  {
    Pow256Widths();
    var e := EncodeI32(x);
    assert (e + rest)[..4] == e && (e + rest)[4..] == rest;
    DecodeEncodeLE(if x < 0 then x + 0x1_0000_0000 else x, 4);
  }

  lemma I32Exact(s: seq<u8>)
    ensures DecodeI32(s).Some? ==> s == EncodeI32(DecodeI32(s).value.0) + DecodeI32(s).value.1
  {
    if |s| >= 4 {
      Pow256Widths();
      EncodeDecodeLE(s[..4]);
      assert s == s[..4] + s[4..];
    }
  }

  lemma I32Truncated(x: i32, k: nat)
    requires k < |EncodeI32(x)|
    ensures DecodeI32(EncodeI32(x)[..k]) == None
  {
  }

  lemma I64RoundTrip(x: i64, rest: seq<u8>)
    ensures DecodeI64(EncodeI64(x) + rest) == Some((x, rest))
  {
    Pow256Widths();
    var e := EncodeI64(x);
    assert (e + rest)[..8] == e && (e + rest)[8..] == rest;
    DecodeEncodeLE(if x < 0 then x + 0x1_0000_0000_0000_0000 else x, 8);
  }

  lemma I64Exact(s: seq<u8>)
    ensures DecodeI64(s).Some? ==> s == EncodeI64(DecodeI64(s).value.0) + DecodeI64(s).value.1
  {
    if |s| >= 8 {
      Pow256Widths();
      EncodeDecodeLE(s[..8]);
      assert s == s[..8] + s[8..];
    }
  }

  lemma I64Truncated(x: i64, k: nat)
    requires k < |EncodeI64(x)|
    ensures DecodeI64(EncodeI64(x)[..k]) == None
  {
  }

  lemma BytesRoundTrip(b: Bytes, rest: seq<u8>)
    ensures DecodeBytes(EncodeBytes(b) + rest) == Some((b, rest))
  {
    var len := EncodeUsize(|b|);
    assert EncodeBytes(b) + rest == len + (b + rest);
    UsizeRoundTrip(|b|, b + rest);
    assert (b + rest)[..|b|] == b && (b + rest)[|b|..] == rest;
  }

  lemma BytesExact(s: seq<u8>)
    ensures DecodeBytes(s).Some? ==> s == EncodeBytes(DecodeBytes(s).value.0) + DecodeBytes(s).value.1
  {
    UsizeExact(s);
    if DecodeBytes(s).Some? {
      var n := DecodeUsize(s).value;
      assert n.1 == n.1[..n.0] + n.1[n.0..];
    }
  }

  lemma BytesTruncated(b: Bytes, k: nat)
    requires k < |EncodeBytes(b)|
    ensures DecodeBytes(EncodeBytes(b)[..k]) == None
  {
    if k >= 8 {
      var len := EncodeUsize(|b|);
      assert EncodeBytes(b)[..k] == len + b[..k - 8];
      UsizeRoundTrip(|b|, b[..k - 8]);
    }
  }

  // ---------------------------------------------------------------------------
  // Cutting a concatenation

  lemma Append4(a: seq<u8>, b: seq<u8>, c: seq<u8>, d: seq<u8>, e: seq<u8>)
    ensures a + b + c + d + e == a + (b + (c + (d + e)))
  {
  }

  lemma CutLeft(a: seq<u8>, b: seq<u8>, k: nat)
    requires k <= |a|
    ensures (a + b)[..k] == a[..k]
  {
  }

  lemma CutRight(a: seq<u8>, b: seq<u8>, k: nat)
    requires |a| <= k <= |a| + |b|
    ensures (a + b)[..k] == a + b[..k - |a|]
  {
  }
}
