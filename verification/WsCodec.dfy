/** The frame codec as the daemon runs it: on the caller's buffer, unmasking in place. */
module WsCodec {
  import opened Bytes
  import opened WsFrame

  /** The header part of the decoder: -1 and 0 are its answers for malformed and too short,
      1 says that the frame's shape is known and acceptable. */
  method ReadHeader(buf: array<Byte>, len: nat) returns (n: int, fin: bool, opcode: nat, off: nat, plen: nat)
    requires len <= buf.Length
    ensures match ParseHeader(buf[..len])
            case Short => n == 0
            case Bad => n == -1
            case Header(f, op, keyAt, l) => n == 1 && fin == f && opcode == op && off == keyAt && plen == l
  {
    n, fin, opcode, off, plen := 0, false, 0, 2, 0;
    ghost var s := buf[..len];
    if len < 2 {
      return;
    }
    n := -1;
    var b0, b1 := buf[0], buf[1];
    if MiddleBits(b0) {
      return;
    }
    fin := TopBit(b0);
    if !TopBit(b1) {
      return;
    }
    plen := LowSeven(b1);
    if plen == 126 {
      if len < off + 2 {
        return 0, fin, opcode, off, plen;
      }
      plen := BigEndian(buf[off..off + 2]);
      off := off + 2;
      PrefixSlice(buf[..], len, 2, 4);
      assert s == buf[..][..len] && buf[2..4] == buf[..][2..4];
    } else if plen == 127 {
      if len < off + 8 {
        return 0, fin, opcode, off, plen;
      }
      var hi, lo := BigEndian(buf[off..off + 4]), BigEndian(buf[off + 4..off + 8]);
      plen := hi * 0x1_0000_0000 + lo;
      off := off + 8;
      PrefixSlice(buf[..], len, 2, 10);
      assert s == buf[..][..len] && buf[2..6] + buf[6..10] == buf[..][2..10];
      BigEndianSplit(buf[2..6], buf[6..10]);
      FourBytes();
    }
    if plen > INT_MAX - (off + 4) {
      return;
    }
    opcode := LowFour(b0);
    if opcode !in {OP_CONT, OP_TEXT, OP_BIN, OP_CLOSE, OP_PING, OP_PONG} {
      return;
    }
    if opcode >= 8 && (!fin || plen > 125) {
      return;
    }
    n := 1;
  }

  /** Looks at the first `len` bytes of the buffer. Only a complete frame changes the
      buffer, and then only its payload, which is unmasked where it lies. */
  method DecodeFrame(buf: array<Byte>, len: nat)
    returns (n: int, fin: bool, opcode: nat, payloadAt: nat, payloadLen: nat)
    requires len <= buf.Length
    modifies buf
    ensures match Decode(old(buf[..len]))
            case Incomplete => n == 0 && buf[..] == old(buf[..])
            case Malformed => n == -1 && buf[..] == old(buf[..])
            case Complete(f, consumed) =>
              && n == consumed && 6 <= n <= len && n <= INT_MAX
              && payloadAt + payloadLen == consumed
              && Frame(fin, opcode, buf[payloadAt..consumed]) == f
              && buf[..payloadAt] == old(buf[..payloadAt])
              && buf[consumed..] == old(buf[consumed..])
  {
    ghost var s := buf[..len];
    var off, plen;
    n, fin, opcode, off, plen := ReadHeader(buf, len);
    payloadAt, payloadLen := off, plen;
    if n != 1 {
      return;
    }
    HeaderBounds(s);
    n := 0;
    if len < off + 4 {
      return;
    }
    var key := buf[off..off + 4];
    off := off + 4;
    if plen > len - off {
      return;
    }
    PrefixSlice(buf[..], len, off - 4, off);
    PrefixSlice(buf[..], len, off, off + plen);
    assert s == buf[..][..len] && buf[off..off + plen] == buf[..][off..off + plen];
    Unmask(buf, off, plen, key);
    n, payloadAt := off + plen, off;
  }

  lemma FourBytes()
    ensures Pow256(4) == 0x1_0000_0000
  {
  }

  /** The XOR loop over `plen` bytes from `off`; the key lies before them. */
  method Unmask(buf: array<Byte>, off: nat, plen: nat, key: seq<Byte>)
    requires |key| == 4 && off + plen <= buf.Length
    modifies buf
    ensures buf[..off] == old(buf[..off]) && buf[off + plen..] == old(buf[off + plen..])
    ensures buf[off..off + plen] == Mask(key, old(buf[off..off + plen]))
  {
    for i := 0 to plen
      invariant forall k :: 0 <= k < buf.Length && !(off <= k < off + i) ==> buf[k] == old(buf[k])
      invariant forall k :: off <= k < off + i ==> buf[k] == Xor(old(buf[k]), key[(k - off) % 4])
    {
      buf[off + i] := Xor(buf[off + i], key[i % 4]);
    }
    ghost var data := old(buf[off..off + plen]);
    forall k | 0 <= k < plen ensures buf[off..off + plen][k] == Mask(key, data)[k] {
      assert data[k] == old(buf[off + k]) && buf[off + k] == Xor(data[k], key[k % 4]);
    }
  }

  /** Writes an unmasked final frame to the front of the buffer, or answers -1 and writes
      nothing when header and payload do not fit in it (or in the int result). */
  method EncodeFrame(buf: array<Byte>, opcode: nat, payload: seq<Byte>) returns (n: int)
    modifies buf
    ensures n == -1 <==> KeyOffset(ShortestForm(|payload|)) + |payload| > Min(buf.Length, INT_MAX)
    ensures n == -1 ==> buf[..] == old(buf[..])
    ensures n != -1 ==> |payload| <= INT_MAX && n == |ServerFrame(opcode % 16, payload)| <= buf.Length
    ensures n != -1 ==> buf[..n] == ServerFrame(opcode % 16, payload) && buf[n..] == old(buf[n..])
  {
    var len := |payload|;
    var hdrlen := if len < 126 then 2 else if len <= 0xffff then 4 else 10;
    if len > INT_MAX - hdrlen || buf.Length < hdrlen || len > buf.Length - hdrlen {
      return -1;
    }
    var header: seq<Byte>;
    if len < 126 {
      header := [128 + opcode % 16, len];
    } else if len <= 0xffff {
      header := [128 + opcode % 16, 126] + ToBigEndian(len, 2);
    } else {
      header := [128 + opcode % 16, 127] + ToBigEndian(len / 0x1_0000_0000, 4) + ToBigEndian(len % 0x1_0000_0000, 4);
      TwoWords(len);
    }
    assert header == [FirstByte(true, opcode % 16)] + LengthBytes(ShortestForm(len), false, len);
    Put(buf, header + payload);
    n := hdrlen + len;
  }

  /** Copies data to the front of the buffer. */
  method Put(buf: array<Byte>, data: seq<Byte>)
    requires |data| <= buf.Length
    modifies buf
    ensures buf[..|data|] == data && buf[|data|..] == old(buf[|data|..])
  {
    forall k | 0 <= k < |data| { buf[k] := data[k]; }
  }

  function Min(a: nat, b: nat): nat {
    if a < b then a else b
  }

  /** Writing the high and the low word separately writes the whole. */
  lemma TwoWords(n: nat)
    requires n <= INT_MAX
    ensures ToBigEndian(n, 8) == ToBigEndian(n / 0x1_0000_0000, 4) + ToBigEndian(n % 0x1_0000_0000, 4)
  {
    var high, low := ToBigEndian(n / 0x1_0000_0000, 4), ToBigEndian(n % 0x1_0000_0000, 4);
    FourBytes();
    BigEndianRoundTrip(n / 0x1_0000_0000, 4);
    BigEndianRoundTrip(n % 0x1_0000_0000, 4);
    BigEndianSplit(high, low);
    BigEndianInverse(high + low);
  }
}
