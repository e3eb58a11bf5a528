/** WebSocket frames as values (section 5.2 of RFC 6455): the verdict the
    daemon's decoder gives on a run of received bytes, the client and server
    encodings, and how they fit together. */
module WsFrame {
  import opened Bytes

  const INT_MAX: nat := 0x7fff_ffff

  const OP_CONT: nat := 0x0
  const OP_TEXT: nat := 0x1
  const OP_BIN: nat := 0x2
  const OP_CLOSE: nat := 0x8
  const OP_PING: nat := 0x9
  const OP_PONG: nat := 0xA

  datatype Frame = Frame(fin: bool, opcode: nat, payload: seq<Byte>)

  datatype Verdict = Incomplete | Malformed | Complete(frame: Frame, consumed: nat)

  /** What the bytes before the masking key say; `keyAt` is where the key starts. */
  datatype Header = Short | Bad | Header(fin: bool, opcode: nat, keyAt: nat, plen: nat)

  predicate Supported(opcode: nat) {
    opcode in {OP_CONT, OP_TEXT, OP_BIN, OP_CLOSE, OP_PING, OP_PONG}
  }

  predicate IsControl(opcode: nat) {
    opcode >= 8
  }

  /** A frame the decoder is willing to hand out once `keyAt + 4` header bytes are known. */
  predicate Legal(fin: bool, opcode: nat, keyAt: nat, plen: nat) {
    && Supported(opcode)
    && plen + keyAt + 4 <= INT_MAX
    && (IsControl(opcode) ==> fin && plen <= 125)
  }

  function CheckHeader(b0: Byte, keyAt: nat, plen: nat): Header {
    var opcode := LowFour(b0);
    if Legal(TopBit(b0), opcode, keyAt, plen) then Header(TopBit(b0), opcode, keyAt, plen) else Bad
  }

  function ParseHeader(s: seq<Byte>): Header {
    if |s| < 2 then Short
    else if MiddleBits(s[0]) || !TopBit(s[1]) then Bad
    else
      var len7 := LowSeven(s[1]);
      if len7 == 126 then
        if |s| < 4 then Short else CheckHeader(s[0], 4, BigEndian(s[2..4]))
      else if len7 == 127 then
        if |s| < 10 then Short else CheckHeader(s[0], 10, BigEndian(s[2..10]))
      else CheckHeader(s[0], 2, len7)
  }

  /** Masking and unmasking are the same operation (section 5.3 of RFC 6455). */
  function Mask(key: seq<Byte>, data: seq<Byte>): (r: seq<Byte>)
    requires |key| == 4
    ensures |r| == |data|
  {
    seq(|data|, i requires 0 <= i < |data| => Xor(data[i], key[i % 4]))
  }

  function Decode(s: seq<Byte>): Verdict {
    match ParseHeader(s)
    case Short => Incomplete
    case Bad => Malformed
    case Header(fin, opcode, keyAt, plen) =>
      if |s| < keyAt + 4 + plen then Incomplete
      else Complete(Frame(fin, opcode, Mask(s[keyAt..keyAt + 4], s[keyAt + 4..keyAt + 4 + plen])), keyAt + 4 + plen)
  }

  // ----- the decoder as an incremental verdict -----

  lemma HeaderStable(s: seq<Byte>, t: seq<Byte>)
    requires ParseHeader(s) != Short
    ensures ParseHeader(s + t) == ParseHeader(s)
  {
    if |s| >= 4 { SliceOfPrefix(s, t, 2, 4); }
    if |s| >= 10 { SliceOfPrefix(s, t, 2, 10); }
  }

  /** Once the decoder has answered anything but "incomplete", more bytes never change the answer. */
  lemma VerdictStable(s: seq<Byte>, t: seq<Byte>)
    requires Decode(s) != Incomplete
    ensures Decode(s + t) == Decode(s)
  {
    HeaderStable(s, t);
    var h := ParseHeader(s);
    if h.Header? {
      SliceOfPrefix(s, t, h.keyAt, h.keyAt + 4);
      SliceOfPrefix(s, t, h.keyAt + 4, h.keyAt + 4 + h.plen);
    }
  }

  lemma HeaderBounds(s: seq<Byte>)
    requires ParseHeader(s).Header?
    ensures var h := ParseHeader(s);
            h.keyAt in {2, 4, 10} && h.keyAt <= |s| && Legal(h.fin, h.opcode, h.keyAt, h.plen)
            && (h.keyAt == 2 ==> h.plen < 126) && (h.keyAt == 4 ==> h.plen < 65536)
  {
    if ParseHeader(s).keyAt == 4 {
      BigEndianInverse(s[2..4]);
      assert Pow256(2) == 65536 by { assert Pow256(1) == 256 * Pow256(0); }
    }
  }

  /** A complete frame is recognised at exactly its last byte: every proper prefix is "incomplete". */
  lemma ProperPrefixIncomplete(s: seq<Byte>, k: nat)
    requires Decode(s).Complete? && k < Decode(s).consumed
    ensures k < |s| && Decode(s[..k]) == Incomplete
  {
    HeaderBounds(s);
    assert s[..k] + s[k..] == s;
    var t := s[..k];
    if Decode(t) != Incomplete {
      VerdictStable(t, s[k..]);
      assert false;
    }
  }

  lemma CompleteBounds(s: seq<Byte>)
    requires Decode(s).Complete?
    ensures 6 <= Decode(s).consumed <= |s| && |Decode(s).frame.payload| <= Decode(s).consumed
    ensures IsControl(Decode(s).frame.opcode) ==> Decode(s).frame.fin && |Decode(s).frame.payload| <= 125
  {
  }

  // ----- client frames: masked, in any of the three length forms -----

  datatype LengthForm = Len7 | Len16 | Len64

  function KeyOffset(form: LengthForm): nat {
    match form case Len7 => 2 case Len16 => 4 case Len64 => 10
  }

  predicate Fits(form: LengthForm, n: nat) {
    match form case Len7 => n < 126 case Len16 => n < 0x1_0000 case Len64 => n < 0x1_0000_0000_0000_0000
  }

  function FirstByte(fin: bool, opcode: nat): Byte
    requires opcode < 16
  {
    (if fin then 128 else 0) + opcode
  }

  /** The length field after the first byte; its top bit is the MASK bit. */
  function LengthBytes(form: LengthForm, masked: bool, n: nat): (s: seq<Byte>)
    requires Fits(form, n)
    ensures |s| == KeyOffset(form) - 1
  {
    var bit := if masked then 128 else 0;
    match form
    case Len7 => [bit + n]
    case Len16 => [bit + 126] + ToBigEndian(n, 2)
    case Len64 => [bit + 127] + ToBigEndian(n, 8)
  }

  function ClientFrame(form: LengthForm, key: seq<Byte>, f: Frame): (s: seq<Byte>)
    requires |key| == 4 && f.opcode < 16 && Fits(form, |f.payload|)
    ensures |s| == KeyOffset(form) + 4 + |f.payload|
  {
    [FirstByte(f.fin, f.opcode)] + LengthBytes(form, true, |f.payload|) + key + Mask(key, f.payload)
  }

  ghost predicate LegalFrame(form: LengthForm, f: Frame) {
    Fits(form, |f.payload|) && Legal(f.fin, f.opcode, KeyOffset(form), |f.payload|)
  }

  lemma MaskInvolution(key: seq<Byte>, data: seq<Byte>)
    requires |key| == 4
    ensures Mask(key, Mask(key, data)) == data
  {
    forall i | 0 <= i < |data|
      ensures Mask(key, Mask(key, data))[i] == data[i]
    {
      XorTwice(data[i], key[i % 4]);
    }
  }

  lemma Powers()
    ensures Pow256(2) == 0x1_0000 && Pow256(8) == 0x1_0000_0000_0000_0000
  {
  }

  /** The length field reads back as the length, whichever form carries it. */
  lemma LengthReads(form: LengthForm, masked: bool, n: nat, b0: Byte, rest: seq<Byte>)
    requires Fits(form, n)
    ensures var s := [b0] + LengthBytes(form, masked, n) + rest;
            && TopBit(s[1]) == masked
            && (form == Len7 ==> LowSeven(s[1]) == n)
            && (form == Len16 ==> LowSeven(s[1]) == 126 && BigEndian(s[2..4]) == n)
            && (form == Len64 ==> LowSeven(s[1]) == 127 && BigEndian(s[2..10]) == n)
  {
    hide BigEndian;
    hide ToBigEndian;
    hide Pow256;
    var s := [b0] + LengthBytes(form, masked, n) + rest;
    Powers();
    match form
    case Len7 =>
    case Len16 =>
      BigEndianRoundTrip(n, 2);
      assert s[2..4] == ToBigEndian(n, 2);
    case Len64 =>
      BigEndianRoundTrip(n, 8);
      assert s[2..10] == ToBigEndian(n, 8);
  }

  lemma ClientHeaderParses(form: LengthForm, f: Frame, rest: seq<Byte>)
    requires LegalFrame(form, f)
    ensures ParseHeader([FirstByte(f.fin, f.opcode)] + LengthBytes(form, true, |f.payload|) + rest)
         == Header(f.fin, f.opcode, KeyOffset(form), |f.payload|)
  {
    LengthReads(form, true, |f.payload|, FirstByte(f.fin, f.opcode), rest);
  }

  lemma MiddleSlices<T>(a: seq<T>, b: seq<T>, c: seq<T>, d: seq<T>)
    ensures (a + b + c + d)[|a|..|a| + |b|] == b
    ensures (a + b + c + d)[|a| + |b|..|a| + |b| + |c|] == c
    ensures a + b + c + d == a + (b + c + d)
  {
  }

  /** Masked round trip: the decoder takes exactly one client frame off the front, whatever follows. */
  lemma DecodesClientFrame(form: LengthForm, key: seq<Byte>, f: Frame, rest: seq<Byte>)
    requires |key| == 4 && LegalFrame(form, f)
    ensures Decode(ClientFrame(form, key, f) + rest) == Complete(f, |ClientFrame(form, key, f)|)
  {
    var header := [FirstByte(f.fin, f.opcode)] + LengthBytes(form, true, |f.payload|);
    var masked := Mask(key, f.payload);
    ClientHeaderParses(form, f, key + masked + rest);
    MiddleSlices(header, key, masked, rest);
    MaskInvolution(key, f.payload);
  }

  /** An accepted header is the header of its own fields. */
  lemma HeaderRebuilt(s: seq<Byte>, form: LengthForm)
    requires ParseHeader(s).Header? && KeyOffset(form) == ParseHeader(s).keyAt
    ensures var h := ParseHeader(s);
            && h.keyAt <= |s| && h.opcode < 16 && Fits(form, h.plen)
            && s[..h.keyAt] == [FirstByte(h.fin, h.opcode)] + LengthBytes(form, true, h.plen)
  {
    hide BigEndian;
    hide ToBigEndian;
    hide Pow256;
    HeaderBounds(s);
    Powers();
    match form
    case Len7 =>
    case Len16 => BigEndianInverse(s[2..4]); assert s[..4] == [s[0]] + [s[1]] + s[2..4];
    case Len64 => BigEndianInverse(s[2..10]); assert s[..10] == [s[0]] + [s[1]] + s[2..10];
  }

  /** Conversely the decoder completes nothing but client frames. */
  lemma CompleteIsClientFrame(s: seq<Byte>) returns (form: LengthForm, key: seq<Byte>)
    requires Decode(s).Complete?
    ensures |key| == 4 && LegalFrame(form, Decode(s).frame)
    ensures Decode(s).consumed <= |s| && s[..Decode(s).consumed] == ClientFrame(form, key, Decode(s).frame)
  {
    hide ParseHeader;
    hide LengthBytes;
    hide BigEndian;
    hide ToBigEndian;
    var h := ParseHeader(s);
    HeaderBounds(s);
    form := if h.keyAt == 2 then Len7 else if h.keyAt == 4 then Len16 else Len64;
    key := s[h.keyAt..h.keyAt + 4];
    HeaderRebuilt(s, form);
    var data := s[h.keyAt + 4..h.keyAt + 4 + h.plen];
    MaskInvolution(key, data);
    assert s[..h.keyAt + 4 + h.plen] == s[..h.keyAt] + key + data;
  }

  // ----- server frames: FIN set, unmasked, shortest length form -----

  function ShortestForm(n: nat): LengthForm {
    if n < 126 then Len7 else if n <= 0xffff then Len16 else Len64
  }

  function ServerFrame(opcode: nat, payload: seq<Byte>): (s: seq<Byte>)
    requires opcode < 16 && |payload| <= INT_MAX
    ensures |s| == KeyOffset(ShortestForm(|payload|)) + |payload|
  {
    [FirstByte(true, opcode)] + LengthBytes(ShortestForm(|payload|), false, |payload|) + payload
  }

  datatype Received = Nothing | Received(fin: bool, opcode: nat, payload: seq<Byte>, consumed: nat)

  /** How a receiver that follows section 5.2 of RFC 6455 reads one unmasked frame. */
  function ReceiveUnmasked(s: seq<Byte>): (r: Received)
    ensures r.Received? ==> 0 < r.consumed <= |s|
  {
    if |s| < 2 || TopBit(s[1]) then Nothing
    else
      var len7 := LowSeven(s[1]);
      var at := if len7 == 126 then 4 else if len7 == 127 then 10 else 2;
      if |s| < at then Nothing
      else
        var n := if len7 < 126 then len7 else BigEndian(s[2..at]);
        if |s| < at + n then Nothing
        else Received(TopBit(s[0]), LowFour(s[0]), s[at..at + n], at + n)
  }

  /** Server frames delimit themselves: a receiver gets back the opcode and payload and stops at the frame's end. */
  lemma ReceivesServerFrame(opcode: nat, payload: seq<Byte>, rest: seq<Byte>)
    requires opcode < 16 && |payload| <= INT_MAX
    ensures ReceiveUnmasked(ServerFrame(opcode, payload) + rest)
         == Received(true, opcode, payload, |ServerFrame(opcode, payload)|)
  {
    var n := |payload|;
    var form := ShortestForm(n);
    var b0 := FirstByte(true, opcode);
    var s := ServerFrame(opcode, payload) + rest;
    LengthReads(form, false, n, b0, payload + rest);
    assert s == [b0] + LengthBytes(form, false, n) + (payload + rest);
    assert s[KeyOffset(form)..KeyOffset(form) + n] == payload;
  }

  datatype Outgoing = Outgoing(opcode: nat, payload: seq<Byte>) {
    ghost predicate Sendable() {
      opcode < 16 && |payload| <= INT_MAX
    }
  }

  ghost predicate AllSendable(items: seq<Outgoing>) {
    forall i :: 0 <= i < |items| ==> items[i].Sendable()
  }

  ghost function ServerStream(items: seq<Outgoing>): seq<Byte>
    requires AllSendable(items)
  {
    if items == [] then []
    else
      assert items[0].Sendable();
      ServerFrame(items[0].opcode, items[0].payload) + ServerStream(items[1..])
  }

  /** Reads frames until the bytes run out. */
  function ReceiveAll(s: seq<Byte>): seq<Outgoing>
    decreases |s|
  {
    match ReceiveUnmasked(s)
    case Nothing => []
    case Received(_, opcode, payload, consumed) => [Outgoing(opcode, payload)] + ReceiveAll(s[consumed..])
  }

  /** A receiver recovers from the stream exactly the frames that were sent, in order. */
  lemma {:induction false} ReceivesServerStream(items: seq<Outgoing>)
    requires AllSendable(items)
    ensures ReceiveAll(ServerStream(items)) == items
  {
    if items != [] {
      var rest := ServerStream(items[1..]);
      assert items[0].Sendable();
      ReceivesServerFrame(items[0].opcode, items[0].payload, rest);
      var frame := ServerFrame(items[0].opcode, items[0].payload);
      assert (frame + rest)[|frame|..] == rest;
      ReceivesServerStream(items[1..]);
    }
  }

  lemma ReceiveStable(s: seq<Byte>, x: seq<Byte>)
    requires ReceiveUnmasked(s).Received?
    ensures ReceiveUnmasked(s + x) == ReceiveUnmasked(s)
  {
    var len7 := LowSeven(s[1]);
    var at := if len7 == 126 then 4 else if len7 == 127 then 10 else 2;
    SliceOfPrefix(s, x, 2, at);
    SliceOfPrefix(s, x, at, ReceiveUnmasked(s).consumed);
  }

  /** Whatever part of the stream has arrived, the receiver has got the first of the frames and no others. */
  lemma {:induction false} ReceivesPrefix(items: seq<Outgoing>, k: nat)
    requires AllSendable(items) && k <= |ServerStream(items)|
    ensures ReceiveAll(ServerStream(items)[..k]) <= items
    decreases |items|
  {
    if items != [] {
      assert items[0].Sendable();
      var frame, rest := ServerFrame(items[0].opcode, items[0].payload), ServerStream(items[1..]);
      var s := (frame + rest)[..k];
      if k < |frame| {
        assert s + frame[k..] == frame && frame + [] == frame;
        ReceivesServerFrame(items[0].opcode, items[0].payload, []);
        if ReceiveUnmasked(s).Received? { ReceiveStable(s, frame[k..]); }
      } else {
        assert s == frame + rest[..k - |frame|] && s[|frame|..] == rest[..k - |frame|];
        ReceivesServerFrame(items[0].opcode, items[0].payload, rest[..k - |frame|]);
        ReceivesPrefix(items[1..], k - |frame|);
      }
    }
  }

  lemma {:induction false} ServerStreamSnoc(items: seq<Outgoing>, x: Outgoing)
    requires AllSendable(items) && x.Sendable()
    ensures AllSendable(items + [x])
    ensures ServerStream(items + [x]) == ServerStream(items) + ServerFrame(x.opcode, x.payload)
  {
    if items == [] {
      assert items + [x] == [x];
      assert ServerStream([x]) == ServerFrame(x.opcode, x.payload) + ServerStream([x][1..]);
    } else {
      ServerStreamSnoc(items[1..], x);
      assert (items + [x])[1..] == items[1..] + [x];
    }
  }
}
