/** The DRPC file-operation messages: the opcode set with its byte values and
    the request and response records, each encoded field by field in the
    order its serialisation declaration lists. */
module FileOps {
  import opened Ints
  import opened Wire

  // ---------------------------------------------------------------------------
  // Opcodes

  datatype Opcode = Open | Read | PRead | Write | PWrite | Close | Remove | MkDir | RmDir

  /** The `#[repr(u8)]` discriminant of each opcode. */
  function OpcodeByte(op: Opcode): (b: u8)
    ensures 1 <= b <= 9
  {
    match op
    case Open => 1
    case Read => 2
    case PRead => 3
    case Write => 4
    case PWrite => 5
    case Close => 6
    case Remove => 7
    case MkDir => 8
    case RmDir => 9
  }

  /** The opcode a byte stands for, if any. */
  function OpcodeFromByte(b: u8): Option<Opcode>
  {
    match b
    case 1 => Some(Open)
    case 2 => Some(Read)
    case 3 => Some(PRead)
    case 4 => Some(Write)
    case 5 => Some(PWrite)
    case 6 => Some(Close)
    case 7 => Some(Remove)
    case 8 => Some(MkDir)
    case 9 => Some(RmDir)
    case _ => None
  }

  /** Every opcode byte reads back as its opcode, so no two opcodes share a
      byte; exactly the bytes 1 to 9 are opcodes, so 0 is none. */
  lemma OpcodeByteRoundTrip(op: Opcode, b: u8)
    ensures OpcodeFromByte(OpcodeByte(op)) == Some(op)
    ensures OpcodeFromByte(b).Some? <==> 1 <= b <= 9
    ensures OpcodeFromByte(b).Some? ==> OpcodeByte(OpcodeFromByte(b).value) == b
  {
  }

  lemma OpcodeByteInjective(a: Opcode, b: Opcode)
    requires OpcodeByte(a) == OpcodeByte(b)
    ensures a == b
  {
    OpcodeByteRoundTrip(a, 0);
    OpcodeByteRoundTrip(b, 0);
  }

  /** The place of each variant in the declaration, which orders the derived
      `PartialOrd`. */
  function Position(op: Opcode): nat
  {
    match op
    case Open => 0
    case Read => 1
    case PRead => 2
    case Write => 3
    case PWrite => 4
    case Close => 5
    case Remove => 6
    case MkDir => 7
    case RmDir => 8
  }

  predicate Precedes(a: Opcode, b: Opcode)
  {
    Position(a) < Position(b)
  }

  /** The derived order agrees with the order of the byte values. */
  lemma OrderMatchesBytes(a: Opcode, b: Opcode)
    ensures Precedes(a, b) <==> OpcodeByte(a) < OpcodeByte(b)
  {
  }

  // ---------------------------------------------------------------------------
  // OpenReq: path, flags, mode

  datatype OpenReq = OpenReq(path: Bytes, flags: i32, mode: u32)

  function EncodeOpenReq(m: OpenReq): (r: seq<u8>)
    ensures |r| == 16 + |m.path|
  {
    EncodeBytes(m.path) + EncodeI32(m.flags) + EncodeU32(m.mode)
  }

  function DecodeOpenReq(s: seq<u8>): (r: Decoded<OpenReq>)
    ensures r.Some? ==> |s| == 16 + |r.value.0.path| + |r.value.1|
  {
    var path :- DecodeBytes(s);
    var flags :- DecodeI32(path.1);
    var mode :- DecodeU32(flags.1);
    Some((OpenReq(path.0, flags.0, mode.0), mode.1))
  }

  lemma OpenReqRoundTrip(m: OpenReq, rest: seq<u8>)
    ensures DecodeOpenReq(EncodeOpenReq(m) + rest) == Some((m, rest))
  {
    var e1, e2, e3 := EncodeBytes(m.path), EncodeI32(m.flags), EncodeU32(m.mode);
    assert EncodeOpenReq(m) + rest == e1 + (e2 + (e3 + rest));
    BytesRoundTrip(m.path, e2 + (e3 + rest));
    I32RoundTrip(m.flags, e3 + rest);
    U32RoundTrip(m.mode, rest);
  }

  lemma OpenReqExact(s: seq<u8>)
    ensures DecodeOpenReq(s).Some? ==> s == EncodeOpenReq(DecodeOpenReq(s).value.0) + DecodeOpenReq(s).value.1
  {
    if DecodeOpenReq(s).Some? {
      var a := DecodeBytes(s).value;
      BytesExact(s);
      var b := DecodeI32(a.1).value;
      I32Exact(a.1);
      var c := DecodeU32(b.1).value;
      U32Exact(b.1);
      assert DecodeOpenReq(s).value == (OpenReq(a.0, b.0, c.0), c.1);
      assert s == EncodeBytes(a.0) + EncodeI32(b.0) + EncodeU32(c.0) + c.1;
    }
  }

  lemma OpenReqTruncated(m: OpenReq, k: nat)
    requires k < |EncodeOpenReq(m)|
    ensures DecodeOpenReq(EncodeOpenReq(m)[..k]) == None
  {
    var e1, e2, e3 := EncodeBytes(m.path), EncodeI32(m.flags), EncodeU32(m.mode);
    assert EncodeOpenReq(m) == e1 + (e2 + e3);
    if k < |e1| {
      CutLeft(e1, e2 + e3, k);
      BytesTruncated(m.path, k);
    } else {
      var k1 := k - |e1|;
      CutRight(e1, e2 + e3, k);
      BytesRoundTrip(m.path, (e2 + e3)[..k1]);
      if k1 < |e2| {
        CutLeft(e2, e3, k1);
        I32Truncated(m.flags, k1);
      } else {
        CutRight(e2, e3, k1);
        I32RoundTrip(m.flags, e3[..k1 - |e2|]);
        U32Truncated(m.mode, k1 - |e2|);
      }
    }
  }

  // ---------------------------------------------------------------------------
  // ReadReq: fd, size, offset

  datatype ReadReq = ReadReq(fd: i32, size: usize, offset: i64)

  function EncodeReadReq(m: ReadReq): (r: seq<u8>)
    ensures |r| == 20
  {
    EncodeI32(m.fd) + EncodeUsize(m.size) + EncodeI64(m.offset)
  }

  function DecodeReadReq(s: seq<u8>): (r: Decoded<ReadReq>)
    ensures r.Some? ==> |s| == 20 + |r.value.1|
  {
    var fd :- DecodeI32(s);
    var size :- DecodeUsize(fd.1);
    var offset :- DecodeI64(size.1);
    Some((ReadReq(fd.0, size.0, offset.0), offset.1))
  }

  lemma ReadReqRoundTrip(m: ReadReq, rest: seq<u8>)
    ensures DecodeReadReq(EncodeReadReq(m) + rest) == Some((m, rest))
  {
    var e1, e2, e3 := EncodeI32(m.fd), EncodeUsize(m.size), EncodeI64(m.offset);
    assert EncodeReadReq(m) + rest == e1 + (e2 + (e3 + rest));
    I32RoundTrip(m.fd, e2 + (e3 + rest));
    UsizeRoundTrip(m.size, e3 + rest);
    I64RoundTrip(m.offset, rest);
  }

  lemma ReadReqExact(s: seq<u8>)
    ensures DecodeReadReq(s).Some? ==> s == EncodeReadReq(DecodeReadReq(s).value.0) + DecodeReadReq(s).value.1
  {
    if DecodeReadReq(s).Some? {
      var a := DecodeI32(s).value;
      I32Exact(s);
      var b := DecodeUsize(a.1).value;
      UsizeExact(a.1);
      var c := DecodeI64(b.1).value;
      I64Exact(b.1);
      assert DecodeReadReq(s).value == (ReadReq(a.0, b.0, c.0), c.1);
      assert s == EncodeI32(a.0) + EncodeUsize(b.0) + EncodeI64(c.0) + c.1;
    }
  }

  lemma ReadReqTruncated(m: ReadReq, k: nat)
    requires k < |EncodeReadReq(m)|
    ensures DecodeReadReq(EncodeReadReq(m)[..k]) == None
  {
    var e1, e2, e3 := EncodeI32(m.fd), EncodeUsize(m.size), EncodeI64(m.offset);
    assert EncodeReadReq(m) == e1 + (e2 + e3);
    if k < |e1| {
      CutLeft(e1, e2 + e3, k);
      I32Truncated(m.fd, k);
    } else {
      var k1 := k - |e1|;
      CutRight(e1, e2 + e3, k);
      I32RoundTrip(m.fd, (e2 + e3)[..k1]);
      if k1 < |e2| {
        CutLeft(e2, e3, k1);
        UsizeTruncated(m.size, k1);
      } else {
        CutRight(e2, e3, k1);
        UsizeRoundTrip(m.size, e3[..k1 - |e2|]);
        I64Truncated(m.offset, k1 - |e2|);
      }
    }
  }

  // ---------------------------------------------------------------------------
  // WriteReq: fd, page, size, offset

  /** `size` is a field of its own: nothing ties it to the length of `page`. */
  datatype WriteReq = WriteReq(fd: i32, page: Bytes, size: usize, offset: i64)

  function EncodeWriteReq(m: WriteReq): (r: seq<u8>)
    ensures |r| == 28 + |m.page|
  {
    EncodeI32(m.fd) + EncodeBytes(m.page) + EncodeUsize(m.size) + EncodeI64(m.offset)
  }

  function DecodeWriteReq(s: seq<u8>): (r: Decoded<WriteReq>)
    ensures r.Some? ==> |s| == 28 + |r.value.0.page| + |r.value.1|
  {
    var fd :- DecodeI32(s);
    var page :- DecodeBytes(fd.1);
    var size :- DecodeUsize(page.1);
    var offset :- DecodeI64(size.1);
    Some((WriteReq(fd.0, page.0, size.0, offset.0), offset.1))
  }

  /** Every field comes back, the page whatever the separate `size` says. */
  lemma WriteReqRoundTrip(m: WriteReq, rest: seq<u8>)
    ensures DecodeWriteReq(EncodeWriteReq(m) + rest) == Some((m, rest))
  {
    var e1, e2, e3, e4 := EncodeI32(m.fd), EncodeBytes(m.page), EncodeUsize(m.size), EncodeI64(m.offset);
    assert EncodeWriteReq(m) + rest == e1 + (e2 + (e3 + (e4 + rest)));
    I32RoundTrip(m.fd, e2 + (e3 + (e4 + rest)));
    BytesRoundTrip(m.page, e3 + (e4 + rest));
    UsizeRoundTrip(m.size, e4 + rest);
    I64RoundTrip(m.offset, rest);
  }

  lemma WriteReqExact(s: seq<u8>)
    ensures DecodeWriteReq(s).Some? ==> s == EncodeWriteReq(DecodeWriteReq(s).value.0) + DecodeWriteReq(s).value.1
  {
    if DecodeWriteReq(s).Some? {
      var a := DecodeI32(s).value;
      I32Exact(s);
      var b := DecodeBytes(a.1).value;
      BytesExact(a.1);
      var c := DecodeUsize(b.1).value;
      UsizeExact(b.1);
      var d := DecodeI64(c.1).value;
      I64Exact(c.1);
      assert DecodeWriteReq(s).value == (WriteReq(a.0, b.0, c.0, d.0), d.1);
      var e1, e2, e3, e4 := EncodeI32(a.0), EncodeBytes(b.0), EncodeUsize(c.0), EncodeI64(d.0);
      assert s == e1 + (e2 + (e3 + (e4 + d.1)));
      Append4(e1, e2, e3, e4, d.1);
    }
  }

  lemma WriteReqTruncated(m: WriteReq, k: nat)
    requires k < |EncodeWriteReq(m)|
    ensures DecodeWriteReq(EncodeWriteReq(m)[..k]) == None
  {
    var e1, e2, e3, e4 := EncodeI32(m.fd), EncodeBytes(m.page), EncodeUsize(m.size), EncodeI64(m.offset);
    assert EncodeWriteReq(m) == e1 + (e2 + (e3 + e4));
    if k < |e1| {
      CutLeft(e1, e2 + (e3 + e4), k);
      I32Truncated(m.fd, k);
    } else {
      var k1 := k - |e1|;
      CutRight(e1, e2 + (e3 + e4), k);
      I32RoundTrip(m.fd, (e2 + (e3 + e4))[..k1]);
      if k1 < |e2| {
        CutLeft(e2, e3 + e4, k1);
        BytesTruncated(m.page, k1);
      } else {
        var k2 := k1 - |e2|;
        CutRight(e2, e3 + e4, k1);
        BytesRoundTrip(m.page, (e3 + e4)[..k2]);
        if k2 < |e3| {
          CutLeft(e3, e4, k2);
          UsizeTruncated(m.size, k2);
        } else {
          CutRight(e3, e4, k2);
          UsizeRoundTrip(m.size, e4[..k2 - |e3|]);
          I64Truncated(m.offset, k2 - |e3|);
        }
      }
    }
  }

  // ---------------------------------------------------------------------------
  // CloseReq: fd

  datatype CloseReq = CloseReq(fd: i32)

  function EncodeCloseReq(m: CloseReq): (r: seq<u8>)
    ensures |r| == 4
  {
    EncodeI32(m.fd)
  }

  function DecodeCloseReq(s: seq<u8>): (r: Decoded<CloseReq>)
    ensures r.Some? ==> |s| == 4 + |r.value.1|
  {
    var fd :- DecodeI32(s);
    Some((CloseReq(fd.0), fd.1))
  }

  lemma CloseReqRoundTrip(m: CloseReq, rest: seq<u8>)
    ensures DecodeCloseReq(EncodeCloseReq(m) + rest) == Some((m, rest))
  {
    I32RoundTrip(m.fd, rest);
  }

  lemma CloseReqExact(s: seq<u8>)
    ensures DecodeCloseReq(s).Some? ==> s == EncodeCloseReq(DecodeCloseReq(s).value.0) + DecodeCloseReq(s).value.1
  {
    I32Exact(s);
  }

  lemma CloseReqTruncated(m: CloseReq, k: nat)
    requires k < |EncodeCloseReq(m)|
    ensures DecodeCloseReq(EncodeCloseReq(m)[..k]) == None
  {
    I32Truncated(m.fd, k);
  }

  // ---------------------------------------------------------------------------
  // RemoveReq: path

  datatype RemoveReq = RemoveReq(path: Bytes)

  function EncodeRemoveReq(m: RemoveReq): (r: seq<u8>)
    ensures |r| == 8 + |m.path|
  {
    EncodeBytes(m.path)
  }

  function DecodeRemoveReq(s: seq<u8>): (r: Decoded<RemoveReq>)
    ensures r.Some? ==> |s| == 8 + |r.value.0.path| + |r.value.1|
  {
    var path :- DecodeBytes(s);
    Some((RemoveReq(path.0), path.1))
  }

  lemma RemoveReqRoundTrip(m: RemoveReq, rest: seq<u8>)
    ensures DecodeRemoveReq(EncodeRemoveReq(m) + rest) == Some((m, rest))
  {
    BytesRoundTrip(m.path, rest);
  }

  lemma RemoveReqExact(s: seq<u8>)
    ensures DecodeRemoveReq(s).Some? ==> s == EncodeRemoveReq(DecodeRemoveReq(s).value.0) + DecodeRemoveReq(s).value.1
  {
    BytesExact(s);
  }

  lemma RemoveReqTruncated(m: RemoveReq, k: nat)
    requires k < |EncodeRemoveReq(m)|
    ensures DecodeRemoveReq(EncodeRemoveReq(m)[..k]) == None
  {
    BytesTruncated(m.path, k);
  }

  // ---------------------------------------------------------------------------
  // MkdirReq: path, mode

  datatype MkdirReq = MkdirReq(path: Bytes, mode: u32)

  function EncodeMkdirReq(m: MkdirReq): (r: seq<u8>)
    ensures |r| == 12 + |m.path|
  {
    EncodeBytes(m.path) + EncodeU32(m.mode)
  }

  function DecodeMkdirReq(s: seq<u8>): (r: Decoded<MkdirReq>)
    ensures r.Some? ==> |s| == 12 + |r.value.0.path| + |r.value.1|
  {
    var path :- DecodeBytes(s);
    var mode :- DecodeU32(path.1);
    Some((MkdirReq(path.0, mode.0), mode.1))
  }

  lemma MkdirReqRoundTrip(m: MkdirReq, rest: seq<u8>)
    ensures DecodeMkdirReq(EncodeMkdirReq(m) + rest) == Some((m, rest))
  {
    var e1, e2 := EncodeBytes(m.path), EncodeU32(m.mode);
    assert EncodeMkdirReq(m) + rest == e1 + (e2 + rest);
    BytesRoundTrip(m.path, e2 + rest);
    U32RoundTrip(m.mode, rest);
  }

  lemma MkdirReqExact(s: seq<u8>)
    ensures DecodeMkdirReq(s).Some? ==> s == EncodeMkdirReq(DecodeMkdirReq(s).value.0) + DecodeMkdirReq(s).value.1
  {
    if DecodeMkdirReq(s).Some? {
      var a := DecodeBytes(s).value;
      BytesExact(s);
      var b := DecodeU32(a.1).value;
      U32Exact(a.1);
      assert DecodeMkdirReq(s).value == (MkdirReq(a.0, b.0), b.1);
      assert s == EncodeBytes(a.0) + EncodeU32(b.0) + b.1;
    }
  }

  lemma MkdirReqTruncated(m: MkdirReq, k: nat)
    requires k < |EncodeMkdirReq(m)|
    ensures DecodeMkdirReq(EncodeMkdirReq(m)[..k]) == None
  {
    var e1, e2 := EncodeBytes(m.path), EncodeU32(m.mode);
    if k < |e1| {
      CutLeft(e1, e2, k);
      BytesTruncated(m.path, k);
    } else {
      CutRight(e1, e2, k);
      BytesRoundTrip(m.path, e2[..k - |e1|]);
      U32Truncated(m.mode, k - |e1|);
    }
  }

  // ---------------------------------------------------------------------------
  // Response: result, size, page

  /** The one response shape; `page` is empty except for reads. */
  datatype Response = Response(result: i32, size: usize, page: Bytes)

  function EncodeResponse(m: Response): (r: seq<u8>)
    ensures |r| == 20 + |m.page|
  {
    EncodeI32(m.result) + EncodeUsize(m.size) + EncodeBytes(m.page)
  }

  function DecodeResponse(s: seq<u8>): (r: Decoded<Response>)
    ensures r.Some? ==> |s| == 20 + |r.value.0.page| + |r.value.1|
  {
    var result :- DecodeI32(s);
    var size :- DecodeUsize(result.1);
    var page :- DecodeBytes(size.1);
    Some((Response(result.0, size.0, page.0), page.1))
  }

  lemma ResponseRoundTrip(m: Response, rest: seq<u8>)
    ensures DecodeResponse(EncodeResponse(m) + rest) == Some((m, rest))
  {
    var e1, e2, e3 := EncodeI32(m.result), EncodeUsize(m.size), EncodeBytes(m.page);
    assert EncodeResponse(m) + rest == e1 + (e2 + (e3 + rest));
    I32RoundTrip(m.result, e2 + (e3 + rest));
    UsizeRoundTrip(m.size, e3 + rest);
    BytesRoundTrip(m.page, rest);
  }

  lemma ResponseExact(s: seq<u8>)
    ensures DecodeResponse(s).Some? ==> s == EncodeResponse(DecodeResponse(s).value.0) + DecodeResponse(s).value.1
  {
    if DecodeResponse(s).Some? {
      var a := DecodeI32(s).value;
      I32Exact(s);
      var b := DecodeUsize(a.1).value;
      UsizeExact(a.1);
      var c := DecodeBytes(b.1).value;
      BytesExact(b.1);
      assert DecodeResponse(s).value == (Response(a.0, b.0, c.0), c.1);
      assert s == EncodeI32(a.0) + EncodeUsize(b.0) + EncodeBytes(c.0) + c.1;
    }
  }

  lemma ResponseTruncated(m: Response, k: nat)
    requires k < |EncodeResponse(m)|
    ensures DecodeResponse(EncodeResponse(m)[..k]) == None
  {
    var e1, e2, e3 := EncodeI32(m.result), EncodeUsize(m.size), EncodeBytes(m.page);
    assert EncodeResponse(m) == e1 + (e2 + e3);
    if k < |e1| {
      CutLeft(e1, e2 + e3, k);
      I32Truncated(m.result, k);
    } else {
      var k1 := k - |e1|;
      CutRight(e1, e2 + e3, k);
      I32RoundTrip(m.result, (e2 + e3)[..k1]);
      if k1 < |e2| {
        CutLeft(e2, e3, k1);
        UsizeTruncated(m.size, k1);
      } else {
        CutRight(e2, e3, k1);
        UsizeRoundTrip(m.size, e3[..k1 - |e2|]);
        BytesTruncated(m.page, k1 - |e2|);
      }
    }
  }
}
