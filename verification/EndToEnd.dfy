/** What a whole connection guarantees, from the bytes read to the bytes written. */
module EndToEnd {
  import opened Bytes
  import opened WsFrame
  import opened Connection
  import opened Wamp
  import Assembly
  import GramSchmidt
  import Http
  import HttpText
  import Protocol
  import RunSafety
  import Runs
  import Session
  import Tls

  // ----- input -----

  lemma StartSettled(env: Session.Env)
    ensures Session.Bounded(env, Session.START)
  {
  }

  /** Two connections whose reads have returned the same bytes, in whatever slices and however their reads and
      writes were interleaved, are in the same phase, have done the same things in the same order and,
      while open, hold the same unread bytes and the same unfinished message. */
  lemma SlicingDoesNotMatter(c: Client, d: Client)
    requires c.Valid() && d.Valid() && c.env == d.env && c.phase != Handshake && d.phase != Handshake
    requires Concat(Tls.Returned(c.calls)) == Concat(Tls.Returned(d.calls))
    ensures c.phase == d.phase && c.log == d.log && c.heard == d.heard
    ensures c.msgOpcode == d.msgOpcode && c.msgbuf[..c.msglen] == d.msgbuf[..d.msglen]
    ensures c.phase != Closing ==> c.inbuf[..c.inlen] == d.inbuf[..d.inlen]
  {
    StartSettled(c.env);
    Session.ChunkingIndependence(c.env, Session.START, Tls.Returned(c.calls), Tls.Returned(d.calls));
  }

  /** A connection performs at most one request, before everything else. If it speaks WebSocket, has a
      controller, has heard a message or has done anything more, then that request came from an allowed origin,
      asked for the upgrade in both header fields and had a key of 1 to 219 bytes. Behind any other request the
      connection is closing, and there never is a controller. */
  lemma OneRequestOnly(c: Client)
    requires c.Valid() && c.phase != Handshake
    ensures Session.Orderly(c.env, c.Sess())
    ensures c.phase == Ws || c.hasCtrl || c.heard != [] || |c.log| > 1 ==>
              && c.log != [] && c.log[0].Request? && c.env.originAllowed(c.log[0].req.origin)
              && c.log[0].req.upgradeHeader && c.log[0].req.connectionUpgrade && 1 <= |c.log[0].req.wsKey| <= 219
    ensures c.log != [] ==>
              var req := c.log[0].req;
              (!c.env.originAllowed(req.origin) || !req.upgradeHeader || !req.connectionUpgrade || req.wsKey == []
               || |req.wsKey| > 219) ==>
                c.phase == Closing && |c.log| == 1 && !c.hasCtrl && c.heard == []
  {
    Session.DeliverOrderly(c.env, Session.START, Tls.Returned(c.calls));
    if |c.log| <= 1 { NoMessages(c.log); }
  }

  lemma NoMessages(log: seq<Session.Action>)
    requires log == [] || (|log| == 1 && log[0].Request?)
    ensures Session.Messages(log) == []
  {
    if log != [] { assert log[..0] == []; }
  }

  /** A connection whose first bytes are a complete request that may not upgrade is closing, whatever it has read
      behind that: it has performed the request and nothing else. */
  lemma RefusedConnection(c: Client, head: seq<Byte>, req: Http.Request, rest: seq<Byte>)
    requires c.Valid() && c.phase != Handshake && Concat(Tls.Returned(c.calls)) == head + rest
    requires Assembly.IsRequest(head, req) && !Session.MayUpgrade(c.env, req)
    ensures c.phase == Closing && !c.hasCtrl && c.heard == []
    ensures c.log == [Session.Request(req, head[|head| - req.contentLength..])]
  {
    hide Session.MayUpgrade;
    Assembly.RefusedRequest(c.env, head, req, rest, Tls.Returned(c.calls));
    NoMessages(c.log);
  }

  /** One whose bytes are an accepted upgrade and frames within the limit, in any encoding, is where the list of
      frames leads, and has a controller. */
  lemma UpgradedConnection(c: Client, head: seq<Byte>, req: Http.Request, ws: seq<Assembly.Wire>)
    requires c.Valid() && c.phase != Handshake && Assembly.AllOk(ws)
    requires Assembly.IsUpgrade(c.env, head, req) && Concat(Tls.Returned(c.calls)) == head + Assembly.Stream(ws)
    ensures c.Sess() == Assembly.OnFrames(c.env, Assembly.Upgraded(head, req), Assembly.Frames(ws)) && c.hasCtrl
  {
    hide Session.MayUpgrade;
    Assembly.UpgradeThenFrames(c.env, head, req, ws, Tls.Returned(c.calls));
    FramesKeepRequest(c.env, Assembly.Upgraded(head, req), Assembly.Frames(ws));
  }

  lemma {:induction false} FramesKeepRequest(env: Session.Env, s: Session.State, fs: seq<Frame>)
    requires s.log != []
    ensures var t := Assembly.OnFrames(env, s, fs); t.log != [] && t.log[0] == s.log[0]
    decreases |fs|
  {
    hide Session.Messages;
    if fs != [] && s.phase == Session.Ws { FramesKeepRequest(env, Session.OnFrame(env, s, fs[0]), fs[1..]); }
  }

  lemma StepKeepsFirst(env: Session.Env, s: Session.State)
    requires s.log != [] && Session.Step(env, s).Some?
    ensures var t := Session.Step(env, s).value; t.log != [] && t.log[0] == s.log[0]
  {
    hide Http.Parse;
    hide Decode;
    hide Session.Messages;
  }

  lemma {:induction false} ProcessKeepsFirst(env: Session.Env, s: Session.State)
    requires s.log != []
    ensures var t := Session.Process(env, s); t.log != [] && t.log[0] == s.log[0]
    decreases |s.input|
  {
    hide Session.Step;
    var r := Session.Step(env, s);
    if r.Some? {
      StepKeepsFirst(env, s);
      ProcessKeepsFirst(env, r.value);
    }
  }

  lemma ProcessStep(env: Session.Env, s: Session.State)
    requires Session.Step(env, s).Some?
    ensures Session.Process(env, s) == Session.Process(env, Session.Step(env, s).value)
  {
  }

  /** A complete request is performed, whatever is read behind it. */
  lemma FirstRequest(env: Session.Env, head: seq<Byte>, req: Http.Request, rest: seq<Byte>, chunks: seq<seq<Byte>>)
    requires Assembly.IsRequest(head, req) && Concat(chunks) == head + rest
    requires Session.ReadsFit(env, Session.START, chunks)
    requires Session.Deliver(env, Session.START, chunks).phase != Session.Overflowed
    ensures var t := Session.Deliver(env, Session.START, chunks);
            t.log != [] && t.log[0] == Session.Request(req, head[|head| - req.contentLength..])
  {
    hide Session.MayUpgrade;
    hide Assembly.IsRequest;
    hide Session.Deliver;
    hide Session.Process;
    hide Session.ReadsFit;
    hide Session.Bounded;
    Assembly.StartWaits(env);
    Assembly.RequestFits(head, req);
    Session.DeliverIsProcess(env, Session.START, chunks);
    assert Session.Append(Session.START, Concat(chunks)) == Session.START.(input := head + rest) by {
      assert [] + Concat(chunks) == head + rest;
    }
    if Session.MayUpgrade(env, req) {
      Assembly.HeadTaken(env, head, req, rest);
      ProcessStep(env, Session.START.(input := head + rest));
      ProcessKeepsFirst(env, Assembly.Upgraded(head, req).(input := rest));
    } else {
      Assembly.RefusedTaken(env, head, req, rest);
    }
  }

  /** From the text of the request to the controller: a connection whose first bytes are a request line and header
      lines without a body performs the request they spell out; it gets a controller exactly when the origin is
      allowed, some line says `Upgrade: websocket`, some Connection line mentions the upgrade, and the key has 1
      to 219 bytes. */
  lemma RequestTextDecides(c: Client, verb: seq<Byte>, path: seq<Byte>, tail: seq<Byte>, headers: seq<seq<Byte>>,
                           rest: seq<Byte>)
    returns (req: Http.Request)
    requires c.Valid() && c.phase != Handshake
    requires HttpText.Solid(verb) && |verb| <= 7 && HttpText.Solid(path) && |path| <= 255
    requires tail == [] || tail[0] == 32 || 9 <= tail[0] <= 13
    requires HttpText.Plain(verb + [32] + path + tail) && HttpText.AllPlain(headers)
    requires forall v :: !HttpText.IsLastHeader(headers, "Content-Length", v)
    requires var head := HttpText.Block([verb + [32] + path + tail] + headers) + [13, 10];
             |head| <= 1048590 && Concat(Tls.Returned(c.calls)) == head + rest
    ensures c.log != [] && c.log[0] == Session.Request(req, []) && req.verb == verb && req.path == path
    ensures HttpText.Holds(headers, "Origin", req.origin) && HttpText.Holds(headers, "Sec-WebSocket-Key", req.wsKey)
    ensures c.hasCtrl <==>
              && c.env.originAllowed(req.origin) && 1 <= |req.wsKey| <= 219
              && HttpText.SomeHeader(headers, "Upgrade", "websocket")
              && HttpText.SomeMention(headers, "Connection", "upgrade")
  {
    hide HttpText.Plain;
    hide HttpText.AllPlain;
    hide HttpText.Solid;
    hide HttpText.Holds;
    hide HttpText.IsLastHeader;
    hide HttpText.SomeHeader;
    hide HttpText.SomeMention;
    hide HttpText.Block;
    hide Http.Parse;
    req := HttpText.ReadsRequest(verb, path, tail, headers, []);
    var head := HttpText.Block([verb + [32] + path + tail] + headers) + [13, 10];
    assert head + [] == head;
    FirstRequest(c.env, head, req, rest, Tls.Returned(c.calls));
    assert head[|head| - req.contentLength..] == [];
  }

  /** If the buffer is full in the WebSocket phase, so that the read loop ends the connection, then the
      first unread frame declares more payload than a message may have. */
  lemma FullBufferIsOversizedFrame(c: Client)
    requires c.Valid() && c.phase == Ws && c.inlen == c.inbuf.Length
    ensures ParseHeader(c.inbuf[..c.inlen]).Header? && ParseHeader(c.inbuf[..c.inlen]).plen > 1048576
  {
    StartSettled(c.env);
    Session.DeliverIsByteByByte(c.env, Session.START, Tls.Returned(c.calls));
    Assembly.FullMeansOversized(c.env, c.Sess());
  }

  /** A full buffer is where the byte-stream machine overflows, whatever would be read next. */
  lemma FullBufferOverflows(c: Client, chunk: seq<Byte>)
    requires c.Valid() && c.phase in {Http, Ws} && chunk != []
    ensures Session.Receive(c.env, c.Sess(), chunk).phase == Session.Overflowed <==> c.inlen == c.inbuf.Length
  {
    var s := c.Sess();
    if c.inlen < c.inbuf.Length { NeverOverflowing(c.env, s.(input := s.input + chunk)); }
  }

  lemma {:induction false} NeverOverflowing(env: Session.Env, s: Session.State)
    requires s.phase != Session.Overflowed
    ensures Session.Process(env, s).phase != Session.Overflowed
    decreases |s.input|
  {
    var r := Session.Step(env, s);
    if r.Some? { NeverOverflowing(env, r.value); }
  }

  /** Conversely, once the first unread frame declares that much, nothing more is ever taken off the
      buffer: whatever arrives next only fills it. */
  lemma OversizedFrameFillsBuffer(c: Client, more: seq<Byte>)
    requires c.Valid() && c.phase == Ws && c.inlen + |more| <= c.inbuf.Length
    requires ParseHeader(c.inbuf[..c.inlen]).Header? && ParseHeader(c.inbuf[..c.inlen]).plen > 1048576
    ensures var s := c.Sess(); Session.Process(c.env, s.(input := s.input + more)) == s.(input := s.input + more)
  {
    Assembly.OversizedNeverCompletes(c.inbuf[..c.inlen], more);
  }

  // ----- output -----

  /** The frames queued after the response to an upgrade. */
  ghost function QueuedFrames(items: seq<Item>): seq<Outgoing>
    requires items != [] && forall k :: 0 < k < |items| ==> items[k].Framed?
  {
    seq(|items| - 1, k requires 0 <= k < |items| - 1 => items[k + 1].frame)
  }

  lemma {:induction false} UpgradeBytes(items: seq<Item>)
    requires items != [] && UpgradeItems(items, false) && ItemsOk(items)
    ensures AllSendable(QueuedFrames(items))
    ensures ItemsBytes(items) == items[0].bytes + ServerStream(QueuedFrames(items))
    decreases |items|
  {
    hide ServerFrame;
    var n := |items| - 1;
    assert ItemOk(items[n]);
    if n == 0 {
      assert ItemsBytes(items[..0]) == [];
    } else {
      var front := items[..n];
      UpgradeBytes(front);
      assert QueuedFrames(items) == QueuedFrames(front) + [items[n].frame];
      ServerStreamSnoc(QueuedFrames(front), items[n].frame);
      Associates(items[0].bytes, ServerStream(QueuedFrames(front)), ItemBytes(items[n]));
    }
  }

  /** Bytes sent so far of a response and a stream of frames. */
  lemma SentSoFar(hdr: seq<Byte>, frames: seq<Outgoing>, sent: seq<Byte>, queue: seq<Byte>)
    requires AllSendable(frames) && sent + queue == hdr + ServerStream(frames)
    ensures |hdr| <= |sent| ==> hdr == sent[..|hdr|] && ReceiveAll(sent[|hdr|..]) <= frames
    ensures queue == [] ==> |hdr| <= |sent| && ReceiveAll(sent[|hdr|..]) == frames
  {
    hide ServerStream;
    var stream := ServerStream(frames);
    if |hdr| <= |sent| {
      assert (sent + queue)[..|sent|] == sent && (hdr + stream)[..|sent|] == hdr + stream[..|sent| - |hdr|];
      assert sent[|hdr|..] == stream[..|sent| - |hdr|];
      ReceivesPrefix(frames, |sent| - |hdr|);
    }
    if queue == [] {
      assert sent + queue == sent && (hdr + stream)[|hdr|..] == stream;
      ReceivesServerStream(frames);
    }
  }

  /** What the peer of an upgraded connection has been sent so far is the response followed by a stream
      that it parses, under section 5.2 of RFC 6455, into the first of the frames queued, and into all
      of them once the queue is empty. */
  lemma PeerReadsFrames(c: Client)
    requires c.Valid() && c.hasCtrl && c.items != []
    ensures UpgradeItems(c.items, false) && AllSendable(QueuedFrames(c.items))
    ensures Tls.Written(c.calls) + c.outbuf[..c.outlen] == c.items[0].bytes + ServerStream(QueuedFrames(c.items))
    ensures var hdr, sent := c.items[0].bytes, Tls.Written(c.calls);
            && (|hdr| <= |sent| ==> hdr == sent[..|hdr|] && ReceiveAll(sent[|hdr|..]) <= QueuedFrames(c.items))
            && (c.outlen == 0 ==> |hdr| <= |sent| && ReceiveAll(sent[|hdr|..]) == QueuedFrames(c.items))
  {
    hide ItemsBytes;
    hide QueuedFrames;
    hide ServerStream;
    UpgradeBytes(c.items);
    SentSoFar(c.items[0].bytes, QueuedFrames(c.items), Tls.Written(c.calls), c.outbuf[..c.outlen]);
  }

  /** The payloads of the frames with that opcode among those received. */
  ghost function PayloadsIn(frames: seq<Outgoing>, opcode: nat): seq<seq<Byte>> {
    if frames == [] then []
    else
      var f := frames[|frames| - 1];
      PayloadsIn(frames[..|frames| - 1], opcode) + (if f.opcode == opcode then [f.payload] else [])
  }

  lemma {:induction false} PayloadsAmongFrames(items: seq<Item>, opcode: nat)
    requires items != [] && UpgradeItems(items, false)
    ensures PayloadsIn(QueuedFrames(items), opcode) == Payloads(items, opcode)
    decreases |items|
  {
    var n := |items| - 1;
    if n == 0 {
      assert QueuedFrames(items) == [] && items[..0] == [];
    } else {
      var front := items[..n];
      PayloadsAmongFrames(front, opcode);
      assert QueuedFrames(items)[..n - 1] == QueuedFrames(front) && QueuedFrames(items)[n - 1] == items[n].frame;
    }
  }

  /** Once the queue of a live upgraded connection is empty, the pongs its peer has parsed are the payloads
      of the pings taken from it, and the texts it has parsed are those given to the controller's send
      callback, one each and in order. */
  lemma PeerGetsItsAnswers(c: Client)
    requires c.Valid() && c.hasCtrl && !c.failed && c.outlen == 0
    ensures c.items != [] && |c.items[0].bytes| <= |Tls.Written(c.calls)|
    ensures var frames := ReceiveAll(Tls.Written(c.calls)[|c.items[0].bytes|..]);
            PayloadsIn(frames, OP_PONG) == Session.PongsDue(c.log) && PayloadsIn(frames, OP_TEXT) == c.spoken
  {
    hide Payloads;
    hide Session.PongsDue;
    hide PayloadsIn;
    hide QueuedFrames;
    PeerReadsFrames(c);
    PayloadsAmongFrames(c.items, OP_PONG);
    PayloadsAmongFrames(c.items, OP_TEXT);
  }

  // ----- the controller behind the connection -----

  /** The messages a controller is handed, as its parser reads them. */
  function Parsed(parse: seq<Byte> -> Option<Json>, heard: seq<seq<Byte>>): seq<Option<Json>> {
    if heard == [] then [] else Parsed(parse, heard[..|heard| - 1]) + [parse(heard[|heard| - 1])]
  }

  /** The verdict the connection code gets on the last of the messages handed over. */
  function Verdict(parse: seq<Byte> -> Option<Json>, heard: seq<seq<Byte>>): bool {
    heard != [] && Protocol.Accepts(RunSafety.StageOf(Protocol.WaitMouse, Parsed(parse, heard[..|heard| - 1])),
                                    parse(heard[|heard| - 1]))
  }

  /** The byte-level model may take the verdict for a function of the messages: a controller that has been
      handed those messages, whatever device events, sensitivity changes, clock readings and ids came in
      between, returns exactly that. */
  lemma ControllerGivesVerdict(lib: GramSchmidt.Libm, s0: Protocol.State, parse: seq<Byte> -> Option<Json>,
                               heard: seq<seq<Byte>>, text: seq<Byte>, inputs: seq<Protocol.Input>)
    requires Runs.Consistent(s0) && s0.c.hs == Protocol.WaitMouse
    requires RunSafety.MessagesOf(inputs) == Parsed(parse, heard)
    ensures Verdict(parse, heard + [text]) == Protocol.Accepts(Protocol.Run(lib, s0, inputs).s.c.hs, parse(text))
  {
    RunSafety.VerdictIsDeterministic(lib, s0, inputs, parse(text));
    assert (heard + [text])[..|heard|] == heard;
  }
}
