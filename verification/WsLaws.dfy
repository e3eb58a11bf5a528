/** The frame layout of section 5.2 of RFC 6455, byte by byte: what the decoder answers on any bytes, what the
    encoder writes, and what each kind of frame does to a connection, with every number written out. */
module WsLaws {
  import opened Bytes
  import opened WsFrame
  import opened Session
  import opened Assembly
  import Http

  // ----- the decoder -----

  /** How many bytes come before the masking key. */
  function Before(b: Byte): nat {
    if b % 128 == 126 then 4 else if b % 128 == 127 then 10 else 2
  }

  function Two(a: nat, b: nat): nat {
    0x100 * a + b
  }

  function Eight(a: nat, b: nat, c: nat, d: nat, e: nat, f: nat, g: nat, h: nat): nat {
    0x1_00_00_00_00_00_00_00 * a + 0x1_00_00_00_00_00_00 * b + 0x1_00_00_00_00_00 * c + 0x1_00_00_00_00 * d
    + 0x1_00_00_00 * e + 0x1_00_00 * f + 0x1_00 * g + h
  }

  /** The payload length that a frame announces. */
  function Announced(s: seq<Byte>): nat
    requires |s| >= 2 && |s| >= Before(s[1])
  {
    if s[1] % 128 == 126 then Two(s[2], s[3])
    else if s[1] % 128 == 127 then Eight(s[2], s[3], s[4], s[5], s[6], s[7], s[8], s[9])
    else s[1] % 128
  }

  /** What no frame from a client may be: one with a reserved bit set or without a mask; one of an unknown kind;
      a control frame that is a fragment or carries more than 125 bytes; or one that does not fit an int. */
  predicate Refused(s: seq<Byte>) {
    |s| >= 2
    && (|| s[0] / 16 % 8 != 0 || s[1] < 128
        || (|s| >= Before(s[1])
            && (|| s[0] % 16 !in {0x0, 0x1, 0x2, 0x8, 0x9, 0xA}
                || (s[0] % 16 >= 8 && (s[0] < 128 || Announced(s) > 125))
                || Before(s[1]) + 4 + Announced(s) > 2147483647)))
  }

  /** The first bytes are this frame: kind and end of message in the first byte, payload behind the key and
      masked with it. */
  predicate Carries(s: seq<Byte>, f: Frame, n: nat) {
    && |s| >= 2 && |s| >= Before(s[1])
    && n == Before(s[1]) + 4 + Announced(s) && n <= |s|
    && f.fin == (s[0] >= 128) && f.opcode == s[0] % 16 && |f.payload| == Announced(s)
    && forall i :: 0 <= i < |f.payload| ==>
         f.payload[i] == Xor(s[Before(s[1]) + 4 + i], s[Before(s[1]) + i % 4])
  }

  lemma TwoBytes(s: seq<Byte>)
    requires |s| == 2
    ensures BigEndian(s) == Two(s[0], s[1])
  {
    assert s[..1] == [s[0]] && [s[0]][..0] == [];
    assert BigEndian([s[0]]) == s[0];
  }

  lemma BigEndianSnoc(s: seq<Byte>)
    requires s != []
    ensures BigEndian(s) == 256 * BigEndian(s[..|s| - 1]) + s[|s| - 1]
  {
  }

  lemma EightBytes(s: seq<Byte>)
    requires |s| == 8
    ensures BigEndian(s) == Eight(s[0], s[1], s[2], s[3], s[4], s[5], s[6], s[7])
  {
    hide BigEndian;
    BigEndianSnoc(s);
    BigEndianSnoc(s[..7]); assert s[..7][..6] == s[..6];
    BigEndianSnoc(s[..6]); assert s[..6][..5] == s[..5];
    BigEndianSnoc(s[..5]); assert s[..5][..4] == s[..4];
    BigEndianSnoc(s[..4]); assert s[..4][..3] == s[..3];
    BigEndianSnoc(s[..3]); assert s[..3][..2] == s[..2];
    TwoBytes(s[..2]);
  }

  lemma HeaderFields(s: seq<Byte>)
    requires |s| >= 2 && |s| >= Before(s[1]) && s[0] / 16 % 8 == 0 && s[1] >= 128
    ensures ParseHeader(s) == CheckHeader(s[0], Before(s[1]), Announced(s))
  {
    hide BigEndian;
    hide CheckHeader;
    if s[1] % 128 == 126 { TwoBytes(s[2..4]); }
    if s[1] % 128 == 127 { EightBytes(s[2..10]); }
  }

  /** The decoder refuses exactly what may not be. */
  lemma RefusesExactly(s: seq<Byte>)
    ensures Decode(s) == Malformed <==> Refused(s)
  {
    hide BigEndian;
    hide Announced;
    if |s| >= 2 && |s| >= Before(s[1]) && s[0] / 16 % 8 == 0 && s[1] >= 128 { HeaderFields(s); }
  }

  /** It hands out a frame exactly when the first bytes are that frame, as a whole. */
  lemma CompletesExactly(s: seq<Byte>, f: Frame, n: nat)
    ensures Decode(s) == Complete(f, n) <==> !Refused(s) && Carries(s, f, n)
  {
    hide BigEndian;
    hide Announced;
    hide Xor;
    if |s| >= 2 && |s| >= Before(s[1]) && s[0] / 16 % 8 == 0 && s[1] >= 128 {
      HeaderFields(s);
      var at, len := Before(s[1]), Announced(s);
      if |s| >= at + 4 + len { Unmasked(s, f, at, len); }
    }
  }

  lemma Unmasked(s: seq<Byte>, f: Frame, at: nat, len: nat)
    requires at + 4 + len <= |s|
    ensures f.payload == Mask(s[at..at + 4], s[at + 4..at + 4 + len]) <==>
            |f.payload| == len && forall i :: 0 <= i < len ==> f.payload[i] == Xor(s[at + 4 + i], s[at + i % 4])
  {
    hide Xor;
    var m := Mask(s[at..at + 4], s[at + 4..at + 4 + len]);
    forall i | 0 <= i < len ensures m[i] == Xor(s[at + 4 + i], s[at + i % 4]) {
      assert s[at..at + 4][i % 4] == s[at + i % 4] && s[at + 4..at + 4 + len][i] == s[at + 4 + i];
    }
  }

  // ----- the encoder -----

  lemma TwoBytesOf(n: nat)
    requires n < 0x1_00_00
    ensures ToBigEndian(n, 2) == [n / 0x100, n % 0x100]
  {
    assert ToBigEndian(n / 256, 1) == ToBigEndian(n / 256 / 256, 0) + [n / 256 % 256];
  }

  lemma ToBigEndianSnoc(n: nat, k: nat)
    requires k > 0
    ensures ToBigEndian(n, k) == ToBigEndian(n / 256, k - 1) + [n % 256]
  {
  }

  lemma ZeroBytes()
    ensures ToBigEndian(0, 4) == [0, 0, 0, 0]
  {
    hide ToBigEndian;
    ToBigEndianSnoc(0, 4);
    ToBigEndianSnoc(0, 3);
    ToBigEndianSnoc(0, 2);
    ToBigEndianSnoc(0, 1);
    assert ToBigEndian(0, 0) == [];
  }

  lemma FourBytesOf(n: nat)
    requires n < 0x1_00_00_00_00
    ensures ToBigEndian(n, 8) == [0, 0, 0, 0, n / 0x1_00_00_00, n / 0x1_00_00 % 0x100, n / 0x100 % 0x100, n % 0x100]
  {
    hide ToBigEndian;
    var a, b, c := n / 256, n / 256 / 256, n / 256 / 256 / 256;
    ToBigEndianSnoc(n, 8);
    ToBigEndianSnoc(a, 7);
    ToBigEndianSnoc(b, 6);
    ToBigEndianSnoc(c, 5);
    ZeroBytes();
    Quotients(n);
  }

  lemma Quotients(n: nat)
    requires n < 0x1_00_00_00_00
    ensures n / 256 / 256 == n / 0x1_00_00 && n / 256 / 256 / 256 == n / 0x1_00_00_00
    ensures n / 256 / 256 / 256 / 256 == 0 && n / 0x1_00_00_00 < 256
  {
  }

  /** A frame from the daemon: the end of a message, not masked, with the shortest form of its length. */
  lemma WritesExactly(opcode: nat, payload: seq<Byte>)
    requires opcode < 16 && |payload| <= 2147483647
    ensures var n := |payload|;
            ServerFrame(opcode, payload) ==
              (if n <= 125 then [128 + opcode, n]
               else if n <= 65535 then [128 + opcode, 126, n / 0x100, n % 0x100]
               else [128 + opcode, 127, 0, 0, 0, 0,
                     n / 0x1_00_00_00, n / 0x1_00_00 % 0x100, n / 0x100 % 0x100, n % 0x100])
              + payload
  {
    hide ToBigEndian;
    var n := |payload|;
    if n > 65535 {
      FourBytesOf(n);
    } else if n > 125 {
      TwoBytesOf(n);
    }
  }

  // ----- control frames and frames that may not be -----

  /** CLOSE (0x8) ends the connection, PING (0x9) gets a PONG with the same payload, and a PONG (0xA) is ignored. */
  lemma ControlFrames(env: Env, s: State, f: Frame)
    ensures f.opcode == 0x8 ==> OnFrame(env, s, f) == s.(phase := Closing, input := [])
    ensures f.opcode == 0x9 ==> OnFrame(env, s, f) == s.(log := s.log + [Pong(f.payload)])
    ensures f.opcode == 0xA ==> OnFrame(env, s, f) == s
  {
  }

  /** Once a CLOSE frame is taken, nothing behind it is looked at, and nothing before it is undone. */
  lemma CloseEnds(env: Env, s: State, before: seq<Frame>, f: Frame, after: seq<Frame>)
    requires s.phase == Ws && f.opcode == 0x8
    ensures var t := OnFrames(env, s, before);
            OnFrames(env, s, before + [f] + after) == if t.phase == Ws then t.(phase := Closing, input := []) else t
  {
    hide OnData;
    assert before + [f] + after == before + ([f] + after);
    assert ([f] + after)[0] == f && ([f] + after)[1..] == after;
    OnFramesConcat(env, s, before, [f] + after);
    ControlFrames(env, OnFrames(env, s, before), f);
  }

  /** What a connection has come to when the bytes it may not be sent begin. */
  function Ended(t: State): State {
    if t.phase == Ws then t.(phase := Closing, input := []) else t
  }

  lemma BadStep(env: Env, s: State)
    requires s.phase == Ws && Decode(s.input) == Malformed
    ensures Process(env, s) == s.(phase := Closing, input := [])
  {
    hide Decode;
  }

  lemma {:induction false} BadProcesses(env: Env, s: State, ws: seq<Wire>, bad: seq<Byte>)
    requires s.phase == Ws && AllOk(ws) && Decode(bad) == Malformed && s.input == Stream(ws) + bad
    ensures Process(env, s) == Ended(OnFrames(env, s.(input := []), Frames(ws)).(input := []))
    decreases |ws|
  {
    hide OnFrame;
    hide Decode;
    if ws == [] {
      assert s.input == bad;
      BadStep(env, s);
    } else {
      assert ws[0].Ok();
      var rest := Stream(ws[1..]) + bad;
      assert s.input == ws[0].Encoded() + rest;
      TakesFrame(env, s, ws[0], rest);
      assert Frames(ws)[1..] == Frames(ws[1..]) && Frames(ws)[0] == ws[0].frame;
      var t := OnFrame(env, s.(input := rest), ws[0].frame);
      FrameInput(env, s, ws[0].frame, rest);
      if t.phase == Ws { BadProcesses(env, t, ws[1..], bad); }
    }
  }

  lemma FrameInput(env: Env, s: State, f: Frame, rest: seq<Byte>)
    requires s.phase == Ws
    ensures var t := OnFrame(env, s.(input := []), f);
            && t.phase in {Ws, Closing} && t.input == []
            && OnFrame(env, s.(input := rest), f) == if t.phase == Ws then t.(input := rest) else t
  {
  }

  /** While a prefix of legal frames and then bad bytes has arrived there is room for more. */
  lemma {:induction false} BadLeavesRoom(env: Env, s: State, ws: seq<Wire>, bad: seq<Byte>, p: seq<Byte>)
    requires s.phase == Ws && s.input == p && AllOk(ws) && Decode(bad) == Malformed && |bad| <= INPUT_BUF_SIZE
    requires p <= Stream(ws) + bad || Stream(ws) + bad <= p
    ensures HasRoom(Process(env, s))
    decreases |ws|
  {
    hide OnFrame;
    hide Decode;
    if Stream(ws) + bad <= p {
      BadAndMore(env, s, ws, bad, p[|Stream(ws) + bad|..]);
      ProcessKeepsRunning(env, s);
    } else if ws == [] {
      assert p <= bad && p + bad[|p|..] == bad;
      if Decode(p) != Incomplete {
        VerdictStable(p, bad[|p|..]);
        BadStep(env, s);
      } else {
        assert Step(env, s) == None;
      }
    } else {
      assert ws[0].Ok();
      var e, rest := ws[0].Encoded(), Stream(ws[1..]) + bad;
      assert Stream(ws) + bad == e + rest;
      if |p| < |e| {
        WaitsForFrame(env, s, ws[0], rest);
      } else {
        var q := p[|e|..];
        assert p == e + q && q <= rest;
        TakesFrame(env, s, ws[0], q);
        FrameInput(env, s, ws[0].frame, q);
        var t := OnFrame(env, s.(input := q), ws[0].frame);
        if t.phase == Ws { BadLeavesRoom(env, t, ws[1..], bad, q); }
      }
    }
  }

  lemma BadAndMore(env: Env, s: State, ws: seq<Wire>, bad: seq<Byte>, more: seq<Byte>)
    requires s.phase == Ws && AllOk(ws) && Decode(bad) == Malformed && s.input == Stream(ws) + bad + more
    ensures Process(env, s) == Ended(OnFrames(env, s.(input := []), Frames(ws)).(input := []))
  {
    hide OnFrame;
    hide Decode;
    VerdictStable(bad, more);
    assert s.input == Stream(ws) + (bad + more);
    BadProcesses(env, s, ws, bad + more);
  }

  /** From the first byte: an upgrade, legal frames, and then bytes that no frame may begin with, in any slicing.
      The frames act, the connection closes, and whatever follows is dead. */
  lemma BadFrameCloses(env: Env, head: seq<Byte>, req: Http.Request, ws: seq<Wire>, bad: seq<Byte>, more: seq<Byte>,
                       chunks: seq<seq<Byte>>)
    requires IsUpgrade(env, head, req) && AllOk(ws) && Refused(bad) && |bad| <= INPUT_BUF_SIZE
    requires Concat(chunks) == head + (Stream(ws) + bad + more) && ReadsFit(env, START, chunks)
    ensures Deliver(env, START, chunks) == Ended(OnFrames(env, Upgraded(head, req), Frames(ws)))
  {
    hide Decode;
    hide Refused;
    hide IsUpgrade;
    RefusesExactly(bad);
    var tail := Stream(ws) + bad + more;
    UpgradeFits(env, head, req);
    forall p: seq<Byte> | p <= head + tail ensures HasRoom(Process(env, START.(input := p))) {
      if |p| < |head| {
        UpgradeIncomplete(env, head, req, p);
      } else {
        var q := p[|head|..];
        assert p == head + q && q <= tail;
        HeadTaken(env, head, req, q);
        BadLeavesRoom(env, Upgraded(head, req).(input := q), ws, bad, q);
      }
    }
    assert [] + Concat(chunks) == head + tail && START.(input := []) == START;
    StartWaits(env);
    NeverOverflows(env, START, head + tail, [], chunks);
    DeliverIsProcess(env, START, chunks);
    HeadTaken(env, head, req, tail);
    BadAndMore(env, Upgraded(head, req).(input := tail), ws, bad, more);
    FramesInput(env, Upgraded(head, req), Frames(ws));
  }

  lemma UpgradeFits(env: Env, head: seq<Byte>, req: Http.Request)
    requires IsUpgrade(env, head, req)
    ensures req.contentLength <= |head| <= INPUT_BUF_SIZE
  {
  }

  lemma UpgradeIncomplete(env: Env, head: seq<Byte>, req: Http.Request, p: seq<Byte>)
    requires IsUpgrade(env, head, req) && p <= head && |p| < |head|
    ensures HasRoom(Process(env, START.(input := p)))
  {
    HeadIncomplete(env, head, req, p);
  }

  lemma {:induction false} FramesInput(env: Env, s: State, fs: seq<Frame>)
    requires s.phase == Ws && s.input == []
    ensures OnFrames(env, s, fs).input == []
    decreases |fs|
  {
    hide OnFrame;
    if fs != [] {
      FrameInput(env, s, fs[0], []);
      var t := OnFrame(env, s, fs[0]);
      if t.phase == Ws { FramesInput(env, t, fs[1..]); }
    }
  }

  // ----- the examples of section 5.7 of RFC 6455 -----

  const HELLO: seq<Byte> := [0x48, 0x65, 0x6c, 0x6c, 0x6f]

  lemma HelloMasked()
    ensures Xor(0x7f, 0x37) == 0x48 && Xor(0x9f, 0xfa) == 0x65 && Xor(0x4d, 0x21) == 0x6c && Xor(0x51, 0x3d) == 0x6c
    ensures Xor(0x58, 0x37) == 0x6f
  {
  }

  lemma HelloFrame(b0: Byte, opcode: nat)
    requires (b0 == 0x81 && opcode == 1) || (b0 == 0x89 && opcode == 9)
    ensures Decode([b0, 0x85, 0x37, 0xfa, 0x21, 0x3d, 0x7f, 0x9f, 0x4d, 0x51, 0x58]) ==
            Complete(Frame(true, opcode, HELLO), 11)
  {
    hide Xor;
    hide Decode;
    HelloMasked();
    CompletesExactly([b0, 0x85, 0x37, 0xfa, 0x21, 0x3d, 0x7f, 0x9f, 0x4d, 0x51, 0x58], Frame(true, opcode, HELLO), 11);
  }

  /** A masked text message in one frame and a masked ping; and how the daemon sends the text and the pong. */
  lemma HelloExamples()
    ensures Decode([0x81, 0x85, 0x37, 0xfa, 0x21, 0x3d, 0x7f, 0x9f, 0x4d, 0x51, 0x58]) ==
            Complete(Frame(true, 1, HELLO), 11)
    ensures Decode([0x89, 0x85, 0x37, 0xfa, 0x21, 0x3d, 0x7f, 0x9f, 0x4d, 0x51, 0x58]) ==
            Complete(Frame(true, 9, HELLO), 11)
    ensures ServerFrame(1, HELLO) == [0x81, 0x05, 0x48, 0x65, 0x6c, 0x6c, 0x6f]
    ensures ServerFrame(10, HELLO) == [0x8a, 0x05, 0x48, 0x65, 0x6c, 0x6c, 0x6f]
  {
    hide Decode;
    hide ServerFrame;
    HelloFrame(0x81, 1);
    HelloFrame(0x89, 9);
    WritesExactly(1, HELLO);
    WritesExactly(10, HELLO);
  }
}
