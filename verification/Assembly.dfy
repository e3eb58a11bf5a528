/** From frames to messages: what fits in the buffers, how fragments become one message, and
    that control frames in between make no difference (section 5.4 of RFC 6455). */
module Assembly {
  import opened Bytes
  import opened WsFrame
  import opened Session
  import Http

  // ----- capacity -----

  /** In the WebSocket phase nothing but a first frame that declares more than MSG_BUF_SIZE
      payload bytes can fill the input buffer for good; and such a frame never completes in it. */
  lemma FullMeansOversized(env: Env, s: State)
    requires s.phase == Ws && Settled(env, s) && |s.input| == 1048590
    ensures ParseHeader(s.input).Header? && ParseHeader(s.input).plen > 1048576
  {
  }

  lemma OversizedNeverCompletes(s: seq<Byte>, more: seq<Byte>)
    requires ParseHeader(s).Header? && ParseHeader(s).plen > 1048576
    requires |s + more| <= 1048590
    ensures Decode(s + more) == Incomplete
  {
    HeaderBounds(s);
    HeaderStable(s, more);
  }

  /** A frame that completes inside the input buffer carries at most MSG_BUF_SIZE bytes, so the
      size limit closes the connection exactly for a continuation that takes a text message over it. */
  lemma LimitHitsContinuationsOnly(s: State, f: Frame)
    requires |s.input| <= 1048590 && Decode(s.input).Complete? && Decode(s.input).frame == f
    ensures |f.payload| <= 1048576
    ensures OverLimit(s, f) <==>
              f.opcode == 0x0 && s.opcode == 0x1 && |s.msg| + |f.payload| > 1048576
  {
    HeaderBounds(s.input);
  }

  // ----- frames, however they are encoded and sliced -----

  function OnFrames(env: Env, s: State, fs: seq<Frame>): State
    decreases |fs|
  {
    if fs == [] || s.phase != Ws then s else OnFrames(env, OnFrame(env, s, fs[0]), fs[1..])
  }

  lemma {:induction false} OnFramesConcat(env: Env, s: State, a: seq<Frame>, b: seq<Frame>)
    ensures OnFrames(env, s, a + b) == OnFrames(env, OnFrames(env, s, a), b)
    decreases |a|
  {
    if a == [] {
      assert a + b == b;
    } else if s.phase == Ws {
      assert (a + b)[1..] == a[1..] + b;
      OnFramesConcat(env, OnFrame(env, s, a[0]), a[1..], b);
    }
  }

  /** A frame as a client may put it on the wire: any length form, any key. */
  datatype Wire = Wire(form: LengthForm, key: seq<Byte>, frame: Frame) {
    ghost predicate Ok() {
      |key| == 4 && LegalFrame(form, frame) && |frame.payload| <= MSG_BUF_SIZE
    }

    ghost function Encoded(): (s: seq<Byte>)
      requires Ok()
      ensures 6 <= |s| <= INPUT_BUF_SIZE
    {
      ClientFrame(form, key, frame)
    }
  }

  ghost predicate AllOk(ws: seq<Wire>) {
    forall i :: 0 <= i < |ws| ==> ws[i].Ok()
  }

  ghost function Frames(ws: seq<Wire>): (fs: seq<Frame>)
    ensures |fs| == |ws|
  {
    seq(|ws|, i requires 0 <= i < |ws| => ws[i].frame)
  }

  ghost function Stream(ws: seq<Wire>): seq<Byte>
    requires AllOk(ws)
  {
    if ws == [] then [] else assert ws[0].Ok(); ws[0].Encoded() + Stream(ws[1..])
  }

  lemma TakesFrame(env: Env, s: State, w: Wire, rest: seq<Byte>)
    requires s.phase == Ws && w.Ok() && s.input == w.Encoded() + rest
    ensures Step(env, s) == Some(OnFrame(env, s.(input := rest), w.frame))
  {
    DecodesClientFrame(w.form, w.key, w.frame, rest);
    assert s.input[|w.Encoded()|..] == rest;
  }

  lemma WaitsForFrame(env: Env, s: State, w: Wire, rest: seq<Byte>)
    requires s.phase == Ws && w.Ok() && s.input <= w.Encoded() + rest && |s.input| < |w.Encoded()|
    ensures Step(env, s) == None
  {
    var e := w.Encoded();
    DecodesClientFrame(w.form, w.key, w.frame, rest);
    ProperPrefixIncomplete(e + rest, |s.input|);
    assert (e + rest)[..|s.input|] == s.input;
  }

  /** Any received prefix of a legal stream leaves less than a full buffer unread. */
  lemma {:induction false} PrefixLeavesRoom(env: Env, s: State, ws: seq<Wire>, p: seq<Byte>)
    requires s.phase == Ws && s.input == p && AllOk(ws) && p <= Stream(ws)
    ensures |Process(env, s).input| < INPUT_BUF_SIZE
    decreases |ws|
  {
    if ws == [] {
      assert Decode(s.input) == Incomplete;
    } else {
      assert ws[0].Ok();
      var e, rest := ws[0].Encoded(), Stream(ws[1..]);
      if |p| < |e| {
        WaitsForFrame(env, s, ws[0], rest);
      } else {
        var q := p[|e|..];
        assert p == e + q && q <= rest;
        TakesFrame(env, s, ws[0], q);
        var t := OnFrame(env, s.(input := q), ws[0].frame);
        if t.phase == Ws {
          PrefixLeavesRoom(env, t, ws[1..], q);
        } else {
          ProcessSettles(env, t);
        }
      }
    }
  }

  lemma ProcessesFrame(env: Env, s: State, w: Wire, rest: seq<Byte>)
    requires s.phase == Ws && s.input == [] && w.Ok()
    ensures Process(env, Append(s, w.Encoded() + rest)) == Process(env, Append(OnFrame(env, s, w.frame), rest))
  {
    var full := Append(s, w.Encoded() + rest);
    assert full.input == w.Encoded() + rest;
    TakesFrame(env, full, w, rest);
    assert full.(input := rest) == Append(s, rest);
    OnFrameAppend(env, s, w.frame, rest);
  }

  lemma {:induction false} StreamProcesses(env: Env, s: State, ws: seq<Wire>)
    requires s.phase == Ws && s.input == [] && AllOk(ws)
    ensures Process(env, Append(s, Stream(ws))) == OnFrames(env, s, Frames(ws))
    decreases |ws|
  {
    if ws == [] {
      assert Append(s, []) == s && Decode([]) == Incomplete;
    } else {
      assert ws[0].Ok();
      ProcessesFrame(env, s, ws[0], Stream(ws[1..]));
      var t := OnFrame(env, s, ws[0].frame);
      assert Frames(ws)[1..] == Frames(ws[1..]) && Frames(ws)[0] == ws[0].frame;
      FrameKeepsInput(env, s, ws[0].frame);
      if t.phase == Ws {
        StreamProcesses(env, t, ws[1..]);
      }
    }
  }

  lemma FrameKeepsInput(env: Env, s: State, f: Frame)
    requires s.phase == Ws && s.input == []
    ensures OnFrame(env, s, f).phase in {Ws, Closing} && OnFrame(env, s, f).input == []
  {
  }

  /** Whatever prefix of the bytes has arrived, processing it leaves room for more, and never fails. */
  ghost predicate LeavesRoom(env: Env, s: State, all: seq<Byte>) {
    forall p: seq<Byte> | p <= all :: HasRoom(Process(env, s.(input := p)))
  }

  ghost predicate HasRoom(t: State) {
    |t.input| < INPUT_BUF_SIZE && t.phase != Overflowed
  }

  lemma {:induction false} NeverOverflows(env: Env, s: State, all: seq<Byte>, done: seq<Byte>, chunks: seq<seq<Byte>>)
    requires s.Open() && LeavesRoom(env, s, all) && done + Concat(chunks) <= all
    requires var t := Process(env, s.(input := done)); Bounded(env, t) && ReadsFit(env, t, chunks)
    ensures Deliver(env, Process(env, s.(input := done)), chunks).phase != Overflowed
    decreases |chunks|
  {
    hide Bounded;
    var t := Process(env, s.(input := done));
    assert HasRoom(t);
    if chunks != [] {
      var c, rest := chunks[0], chunks[1..];
      assert done + c + Concat(rest) == done + Concat(chunks);
      ReceiveBounded(env, t, c);
      if t.Open() {
        ProcessAppend(env, s.(input := done), c);
        assert Receive(env, t, c) == Process(env, s.(input := done + c));
        NeverOverflows(env, s, all, done + c, rest);
      } else {
        ClosedStays(env, t, chunks);
      }
    }
  }

  lemma {:induction false} ProcessKeepsRunning(env: Env, s: State)
    requires s.phase == Ws
    ensures Process(env, s).phase in {Ws, Closing}
    decreases |s.input|
  {
    var r := Step(env, s);
    if r.Some? && r.value.phase == Ws { ProcessKeepsRunning(env, r.value); }
  }

  lemma {:induction false} ClosedStays(env: Env, s: State, chunks: seq<seq<Byte>>)
    requires !s.Open()
    ensures Deliver(env, s, chunks) == s
    decreases |chunks|
  {
    if chunks != [] { ClosedStays(env, s, chunks[1..]); }
  }

  /** Legal frames of at most MSG_BUF_SIZE payload bytes, in any encoding and cut into any reads
      that fit, act exactly as the list of frames does; the buffer bound never shows. */
  lemma FramesArriveWhole(env: Env, s: State, ws: seq<Wire>, chunks: seq<seq<Byte>>)
    requires s.phase == Ws && s.input == [] && AllOk(ws)
    requires Concat(chunks) == Stream(ws) && ReadsFit(env, s, chunks)
    ensures Deliver(env, s, chunks) == OnFrames(env, s, Frames(ws))
  {
    assert Decode([]) == Incomplete;
    assert Process(env, s.(input := [])) == s;
    assert [] + Concat(chunks) == Stream(ws);
    forall p: seq<Byte> | p <= Stream(ws) ensures HasRoom(Process(env, s.(input := p))) {
      PrefixLeavesRoom(env, s.(input := p), ws, p);
      ProcessKeepsRunning(env, s.(input := p));
    }
    NeverOverflows(env, s, Stream(ws), [], chunks);
    DeliverIsProcess(env, s, chunks);
    StreamProcesses(env, s, ws);
  }

  // ----- the grammar switch -----

  /** A complete request, with its body, that fits the input buffer. */
  ghost predicate IsRequest(head: seq<Byte>, req: Http.Request) {
    && Http.Parse(head).Parsed? && Http.Parse(head).req == req && req.contentLength <= 8192
    && |head| == Http.Parse(head).consumed + req.contentLength <= INPUT_BUF_SIZE
  }

  /** One that the connection accepts as an upgrade. */
  ghost predicate IsUpgrade(env: Env, head: seq<Byte>, req: Http.Request) {
    IsRequest(head, req) && MayUpgrade(env, req)
  }

  /** The connection once the upgrade has been taken. */
  function Upgraded(head: seq<Byte>, req: Http.Request): State
    requires req.contentLength <= |head|
  {
    State(Ws, [], -1, [], [Request(req, head[|head| - req.contentLength..])])
  }

  lemma HeadIncomplete(env: Env, head: seq<Byte>, req: Http.Request, p: seq<Byte>)
    requires IsRequest(head, req) && p <= head && |p| < |head|
    ensures Step(env, START.(input := p)) == None
  {
    assert p + head[|p|..] == head;
    if Http.Parse(p) != Http.NeedMore { Http.VerdictStable(p, head[|p|..]); }
  }

  lemma HeadTaken(env: Env, head: seq<Byte>, req: Http.Request, q: seq<Byte>)
    requires IsUpgrade(env, head, req)
    ensures Step(env, START.(input := head + q)) == Some(Upgraded(head, req).(input := q))
  {
    hide Http.Parse;
    var n, end := Http.Parse(head).consumed, |head|;
    Http.VerdictStable(head, q);
    assert (head + q)[end..] == q && (head + q)[n..end] == head[n..];
    assert START.log + [Request(req, head[n..])] == [Request(req, head[n..])];
  }

  lemma UpgradeLeavesRoom(env: Env, head: seq<Byte>, req: Http.Request, ws: seq<Wire>)
    requires IsUpgrade(env, head, req) && AllOk(ws)
    ensures LeavesRoom(env, START, head + Stream(ws))
  {
    forall p: seq<Byte> | p <= head + Stream(ws) ensures HasRoom(Process(env, START.(input := p))) {
      if |p| < |head| {
        HeadIncomplete(env, head, req, p);
      } else {
        var q := p[|head|..];
        assert p == head + q && q <= Stream(ws);
        HeadTaken(env, head, req, q);
        PrefixLeavesRoom(env, Upgraded(head, req).(input := q), ws, q);
        ProcessKeepsRunning(env, Upgraded(head, req).(input := q));
      }
    }
  }

  /** From the first byte: an upgrade followed by frames within the limit, in any encoding and cut into any
      reads that fit, across the switch of grammars, is that one request and then the list of frames. */
  lemma UpgradeThenFrames(env: Env, head: seq<Byte>, req: Http.Request, ws: seq<Wire>, chunks: seq<seq<Byte>>)
    requires IsUpgrade(env, head, req) && AllOk(ws)
    requires Concat(chunks) == head + Stream(ws) && ReadsFit(env, START, chunks)
    ensures Deliver(env, START, chunks) == OnFrames(env, Upgraded(head, req), Frames(ws))
  {
    UpgradeLeavesRoom(env, head, req, ws);
    assert [] + Concat(chunks) == head + Stream(ws) && START.(input := []) == START;
    assert Process(env, START) == START;
    NeverOverflows(env, START, head + Stream(ws), [], chunks);
    DeliverIsProcess(env, START, chunks);
    assert [] + Concat(chunks) == Concat(chunks);
    HeadTaken(env, head, req, Stream(ws));
    StreamProcesses(env, Upgraded(head, req), ws);
    assert [] + Stream(ws) == Stream(ws);
  }

  lemma RefusedTaken(env: Env, head: seq<Byte>, req: Http.Request, q: seq<Byte>)
    requires IsRequest(head, req) && !MayUpgrade(env, req)
    ensures Process(env, START.(input := head + q)) ==
            State(Closing, [], -1, [], [Request(req, head[|head| - req.contentLength..])])
  {
    hide Http.Parse;
    var n, end := Http.Parse(head).consumed, |head|;
    Http.VerdictStable(head, q);
    assert (head + q)[end..] == q && (head + q)[n..end] == head[n..];
    assert START.log + [Request(req, head[n..])] == [Request(req, head[n..])];
  }

  /** From the first byte: a complete request that may not upgrade ends the connection, whatever comes behind it
      and however it is sliced. It is the one thing performed; no frame behind it is looked at. */
  lemma RefusedRequest(env: Env, head: seq<Byte>, req: Http.Request, rest: seq<Byte>, chunks: seq<seq<Byte>>)
    requires IsRequest(head, req) && !MayUpgrade(env, req)
    requires Concat(chunks) == head + rest && ReadsFit(env, START, chunks)
    ensures Deliver(env, START, chunks) ==
            State(Closing, [], -1, [], [Request(req, head[|head| - req.contentLength..])])
  {
    hide MayUpgrade;
    hide IsRequest;
    forall p: seq<Byte> | p <= head + rest ensures HasRoom(Process(env, START.(input := p))) {
      if |p| < |head| {
        HeadIncomplete(env, head, req, p);
        RequestFits(head, req);
      } else {
        assert p == head + p[|head|..];
        RefusedTaken(env, head, req, p[|head|..]);
      }
    }
    assert [] + Concat(chunks) == head + rest && START.(input := []) == START;
    assert Process(env, START) == START;
    NeverOverflows(env, START, head + rest, [], chunks);
    DeliverIsProcess(env, START, chunks);
    RefusedTaken(env, head, req, rest);
  }

  lemma RequestFits(head: seq<Byte>, req: Http.Request)
    requires IsRequest(head, req)
    ensures req.contentLength <= |head| <= INPUT_BUF_SIZE
  {
  }

  /** What no request can be made of: a header block that is none, or one that announces a body of more than
      8192 bytes. */
  ghost predicate Unusable(head: seq<Byte>) {
    Http.Parse(head) == Http.BadRequest || (Http.Parse(head).Parsed? && Http.Parse(head).req.contentLength > 8192)
  }

  lemma UnusableTaken(env: Env, head: seq<Byte>, q: seq<Byte>)
    requires Unusable(head)
    ensures Process(env, START.(input := head + q)) == State(Closing, [], -1, [], [])
  {
    hide Http.Parse;
    Http.VerdictStable(head, q);
  }

  lemma UnusableWaits(env: Env, head: seq<Byte>, p: seq<Byte>)
    requires Unusable(head) && p <= head
    ensures Process(env, START.(input := p)) == if Http.Parse(p) == Http.NeedMore then START.(input := p)
                                               else State(Closing, [], -1, [], [])
  {
    if Http.Parse(p) != Http.NeedMore {
      assert p + head[|p|..] == head;
      Http.VerdictStable(p, head[|p|..]);
      UnusableTaken(env, p, []);
      assert p + [] == p;
    }
  }

  /** Such a block ends the connection with nothing performed, whatever comes behind it and however it is sliced. */
  lemma UnusableCloses(env: Env, head: seq<Byte>, rest: seq<Byte>, chunks: seq<seq<Byte>>)
    requires Unusable(head) && |head| <= INPUT_BUF_SIZE
    requires Concat(chunks) == head + rest && ReadsFit(env, START, chunks)
    ensures Deliver(env, START, chunks) == State(Closing, [], -1, [], [])
  {
    hide Unusable;
    hide Http.Parse;
    forall p: seq<Byte> | p <= head + rest ensures HasRoom(Process(env, START.(input := p))) {
      if |p| < |head| {
        UnusableWaits(env, head, p);
      } else {
        assert p == head + p[|head|..];
        UnusableTaken(env, head, p[|head|..]);
      }
    }
    assert [] + Concat(chunks) == head + rest && START.(input := []) == START;
    StartWaits(env);
    NeverOverflows(env, START, head + rest, [], chunks);
    DeliverIsProcess(env, START, chunks);
    UnusableTaken(env, head, rest);
  }

  lemma StartWaits(env: Env)
    ensures Process(env, START) == START && Bounded(env, START)
  {
  }

  // ----- messages -----

  /** The data frames that carry `parts`: one text frame, then continuations, FIN on the last. */
  function Fragments(parts: seq<seq<Byte>>, first: bool): seq<Frame> {
    if parts == [] then []
    else [Frame(|parts| == 1, if first then OP_TEXT else OP_CONT, parts[0])] + Fragments(parts[1..], false)
  }

  /** The state after the controller has been handed one more message. */
  function Delivered(env: Env, s: State, text: seq<Byte>): State {
    var t := s.(opcode := -1, msg := [], log := s.log + [Message(text)]);
    if env.accepts(Messages(t.log)) then t else Close(t)
  }

  lemma FragmentStep(env: Env, s: State, parts: seq<seq<Byte>>, first: bool)
    requires s.phase == Ws && parts != [] && (first || s.opcode == OP_TEXT)
    requires (if first then 0 else |s.msg|) + |parts[0]| <= MSG_BUF_SIZE
    ensures var text := (if first then [] else s.msg) + parts[0];
            OnFrames(env, s, Fragments(parts, first)) ==
              if |parts| == 1 then Delivered(env, s, text)
              else OnFrames(env, s.(opcode := OP_TEXT, msg := text), Fragments(parts[1..], false))
  {
  }

  lemma ConcatParts(a: seq<Byte>, parts: seq<seq<Byte>>)
    requires parts != []
    ensures a + parts[0] + Concat(parts[1..]) == a + Concat(parts)
    ensures |parts| == 1 ==> a + parts[0] == a + Concat(parts)
  {
    var first, rest := parts[0], Concat(parts[1..]);
    Associates(a, first, rest);
    if |parts| == 1 {
      assert parts[1..] == [] && rest == [];
      assert first + rest == first;
    }
  }

  lemma {:induction false} RestOfMessage(env: Env, s: State, parts: seq<seq<Byte>>)
    requires s.phase == Ws && s.opcode == OP_TEXT && parts != []
    requires |s.msg| + |Concat(parts)| <= MSG_BUF_SIZE
    ensures OnFrames(env, s, Fragments(parts, false)) == Delivered(env, s, s.msg + Concat(parts))
    decreases |parts|
  {
    ConcatParts(s.msg, parts);
    FragmentStep(env, s, parts, false);
    if |parts| > 1 {
      var t := s.(opcode := OP_TEXT, msg := s.msg + parts[0]);
      RestOfMessage(env, t, parts[1..]);
      assert Delivered(env, t, t.msg + Concat(parts[1..])) == Delivered(env, s, s.msg + Concat(parts));
    }
  }

  /** A text message of at most MSG_BUF_SIZE bytes, in any number of fragments, is handed over
      whole, whatever was being assembled before. */
  lemma WholeMessage(env: Env, s: State, parts: seq<seq<Byte>>)
    requires s.phase == Ws && parts != [] && |Concat(parts)| <= MSG_BUF_SIZE
    ensures OnFrames(env, s, Fragments(parts, true)) == Delivered(env, s, Concat(parts))
  {
    ConcatParts([], parts);
    assert [] + Concat(parts) == Concat(parts);
    FragmentStep(env, s, parts, true);
    if |parts| > 1 {
      var t := s.(opcode := OP_TEXT, msg := [] + parts[0]);
      RestOfMessage(env, t, parts[1..]);
      assert Delivered(env, t, t.msg + Concat(parts[1..])) == Delivered(env, s, Concat(parts));
    }
  }

  predicate IsPingOrPong(f: Frame) {
    f.opcode == OP_PING || f.opcode == OP_PONG
  }

  function WithoutPings(fs: seq<Frame>): seq<Frame> {
    if fs == [] then []
    else if IsPingOrPong(fs[0]) then WithoutPings(fs[1..])
    else [fs[0]] + WithoutPings(fs[1..])
  }

  /** Equal but for pongs. */
  ghost predicate SameButPongs(s: State, t: State) {
    s.(log := []) == t.(log := []) && Messages(s.log) == Messages(t.log)
  }

  lemma OnDataIgnoresPongs(env: Env, s: State, t: State, f: Frame)
    requires s.phase == Ws && SameButPongs(s, t) && IsData(f)
    ensures SameButPongs(OnData(env, s, f), OnData(env, t, f))
  {
  }

  lemma OnFrameIgnoresPongs(env: Env, s: State, t: State, f: Frame)
    requires s.phase == Ws && SameButPongs(s, t)
    ensures SameButPongs(OnFrame(env, s, f), OnFrame(env, t, f))
    ensures IsPingOrPong(f) ==> SameButPongs(OnFrame(env, s, f), t)
  {
    hide Messages;
    hide OnData;
    if IsData(f) {
      OnDataIgnoresPongs(env, s, t, f);
    } else {
      MessagesSnoc(s.log, Pong(f.payload));
      MessagesSnoc(t.log, Pong(f.payload));
    }
  }

  /** Deleting every ping and pong from a list of frames changes nothing but the pongs sent. */
  lemma {:induction false} ControlFramesInterleave(env: Env, s: State, t: State, fs: seq<Frame>)
    requires SameButPongs(s, t)
    ensures SameButPongs(OnFrames(env, s, fs), OnFrames(env, t, WithoutPings(fs)))
    decreases |fs|
  {
    if fs != [] && s.phase == Ws {
      OnFrameIgnoresPongs(env, s, t, fs[0]);
      if IsPingOrPong(fs[0]) {
        ControlFramesInterleave(env, OnFrame(env, s, fs[0]), t, fs[1..]);
      } else {
        ControlFramesInterleave(env, OnFrame(env, s, fs[0]), OnFrame(env, t, fs[0]), fs[1..]);
        assert WithoutPings(fs)[1..] == WithoutPings(fs[1..]);
      }
    }
  }

  /** End to end: a text message of at most MSG_BUF_SIZE bytes reaches the controller, whole and
      once, whatever its fragments, encodings, interleaved pings and slicing into reads. */
  lemma MessageReachesController(env: Env, s: State, ws: seq<Wire>, parts: seq<seq<Byte>>, chunks: seq<seq<Byte>>)
    requires s.phase == Ws && s.input == [] && AllOk(ws)
    requires parts != [] && |Concat(parts)| <= MSG_BUF_SIZE
    requires WithoutPings(Frames(ws)) == Fragments(parts, true)
    requires Concat(chunks) == Stream(ws) && ReadsFit(env, s, chunks)
    ensures Messages(Deliver(env, s, chunks).log) == Messages(s.log) + [Concat(parts)]
    ensures Deliver(env, s, chunks).phase == if env.accepts(Messages(s.log) + [Concat(parts)]) then Ws else Closing
  {
    FramesArriveWhole(env, s, ws, chunks);
    ControlFramesInterleave(env, s, s, Frames(ws));
    WholeMessage(env, s, parts);
    MessagesSnoc(s.log, Message(Concat(parts)));
  }

  /** And so does one sent on a connection seen from its first byte, behind the upgrade request. */
  lemma MessageAfterUpgrade(env: Env, head: seq<Byte>, req: Http.Request, ws: seq<Wire>, parts: seq<seq<Byte>>,
                            chunks: seq<seq<Byte>>)
    requires IsUpgrade(env, head, req) && AllOk(ws)
    requires parts != [] && |Concat(parts)| <= MSG_BUF_SIZE
    requires WithoutPings(Frames(ws)) == Fragments(parts, true)
    requires Concat(chunks) == head + Stream(ws) && ReadsFit(env, START, chunks)
    ensures var t := Deliver(env, START, chunks);
            && t.log != [] && t.log[0] == Upgraded(head, req).log[0] && Messages(t.log) == [Concat(parts)]
            && t.phase == if env.accepts([Concat(parts)]) then Ws else Closing
  {
    var s := Upgraded(head, req);
    UpgradeThenFrames(env, head, req, ws, chunks);
    ControlFramesInterleave(env, s, s, Frames(ws));
    WholeMessage(env, s, parts);
    MessagesSnoc([], s.log[0]);
    assert [] + s.log == s.log && Messages(s.log) == [];
    MessagesSnoc(s.log, Message(Concat(parts)));
    LogGrows(env, s, Frames(ws));
  }

  lemma {:induction false} LogGrows(env: Env, s: State, fs: seq<Frame>)
    ensures s.log <= OnFrames(env, s, fs).log
    decreases |fs|
  {
    hide Messages;
    if fs != [] && s.phase == Ws { LogGrows(env, OnFrame(env, s, fs[0]), fs[1..]); }
  }

  // ----- many messages, and the pongs -----

  /** A list of messages, each in its fragments. */
  function AllFragments(msgs: seq<seq<seq<Byte>>>): seq<Frame> {
    if msgs == [] then [] else Fragments(msgs[0], true) + AllFragments(msgs[1..])
  }

  ghost predicate AllSmall(msgs: seq<seq<seq<Byte>>>) {
    forall k :: 0 <= k < |msgs| ==> msgs[k] != [] && |Concat(msgs[k])| <= MSG_BUF_SIZE
  }

  /** What the controller is handed of such a list: everything up to the first text it rejects. */
  function Handed(env: Env, heard: seq<seq<Byte>>, msgs: seq<seq<seq<Byte>>>): seq<seq<Byte>>
    decreases |msgs|
  {
    if msgs == [] then []
    else
      var text := Concat(msgs[0]);
      [text] + if env.accepts(heard + [text]) then Handed(env, heard + [text], msgs[1..]) else []
  }

  predicate AllAccepted(env: Env, heard: seq<seq<Byte>>, msgs: seq<seq<seq<Byte>>>)
    decreases |msgs|
  {
    msgs == [] || (env.accepts(heard + [Concat(msgs[0])]) && AllAccepted(env, heard + [Concat(msgs[0])], msgs[1..]))
  }

  lemma OneOfMany(env: Env, s: State, parts: seq<seq<Byte>>, more: seq<Frame>)
    requires s.phase == Ws && parts != [] && |Concat(parts)| <= MSG_BUF_SIZE
    ensures var t := Delivered(env, s, Concat(parts));
            && OnFrames(env, s, Fragments(parts, true) + more) == OnFrames(env, t, more)
            && Messages(t.log) == Messages(s.log) + [Concat(parts)]
            && t.phase == if env.accepts(Messages(s.log) + [Concat(parts)]) then Ws else Closing
  {
    WholeMessage(env, s, parts);
    OnFramesConcat(env, s, Fragments(parts, true), more);
    MessagesSnoc(s.log, Message(Concat(parts)));
  }

  lemma {:induction false} ManyMessages(env: Env, s: State, msgs: seq<seq<seq<Byte>>>)
    requires s.phase == Ws && AllSmall(msgs)
    ensures var t := OnFrames(env, s, AllFragments(msgs));
            && Messages(t.log) == Messages(s.log) + Handed(env, Messages(s.log), msgs)
            && t.phase == if AllAccepted(env, Messages(s.log), msgs) then Ws else Closing
    decreases |msgs|
  {
    hide Delivered;
    hide Messages;
    hide OnFrame;
    if msgs == [] {
      assert Messages(s.log) + [] == Messages(s.log);
    } else {
      var text, rest := Concat(msgs[0]), msgs[1..];
      var t := Delivered(env, s, text);
      OneOfMany(env, s, msgs[0], AllFragments(rest));
      if t.phase == Ws {
        ManyMessages(env, t, rest);
        Associates(Messages(s.log), [text], Handed(env, Messages(t.log), rest));
      }
    }
  }

  /** How many of the frames are acted on before the connection closes. */
  function Acted(env: Env, s: State, fs: seq<Frame>): (n: nat)
    ensures n <= |fs|
    decreases |fs|
  {
    if fs == [] || s.phase != Ws then 0 else 1 + Acted(env, OnFrame(env, s, fs[0]), fs[1..])
  }

  function PingPayloads(fs: seq<Frame>): seq<seq<Byte>> {
    if fs == [] then []
    else (if fs[0].opcode == OP_PING then [fs[0].payload] else []) + PingPayloads(fs[1..])
  }

  lemma OnePing(env: Env, s: State, f: Frame)
    requires s.phase == Ws
    ensures PongsDue(OnFrame(env, s, f).log) == PongsDue(s.log) + (if f.opcode == OP_PING then [f.payload] else [])
  {
    hide PongsDue;
    hide Messages;
    PongsDueSnoc(s.log, Pong(f.payload));
    PongsDueSnoc(s.log, Message((if IsStart(f) then [] else s.msg) + f.payload));
    assert PongsDue(s.log) + [] == PongsDue(s.log);
  }

  /** Every ping acted on is answered with its own payload, in order, and nothing else is. */
  lemma {:induction false} PingsGetPongs(env: Env, s: State, fs: seq<Frame>)
    ensures var t, n := OnFrames(env, s, fs), Acted(env, s, fs);
            PongsDue(t.log) == PongsDue(s.log) + PingPayloads(fs[..n]) && (t.phase == Ws ==> n == |fs|)
    decreases |fs|
  {
    hide PongsDue;
    hide OnFrame;
    if fs == [] || s.phase != Ws {
      assert PongsDue(s.log) + [] == PongsDue(s.log);
    } else {
      var t, n := OnFrame(env, s, fs[0]), Acted(env, s, fs);
      OnePing(env, s, fs[0]);
      PingsGetPongs(env, t, fs[1..]);
      assert fs[..n][1..] == fs[1..][..n - 1] && fs[..n][0] == fs[0];
      var first := if fs[0].opcode == OP_PING then [fs[0].payload] else [];
      Associates(PongsDue(s.log), first, PingPayloads(fs[1..][..n - 1]));
    }
  }

  /** End to end for whole conversations: behind an accepted upgrade, any list of text messages of at most
      MSG_BUF_SIZE bytes, in any fragments, encodings, interleaved pings and slicing, reaches the controller
      up to the first that it rejects, and the pings taken on the way are answered in order. */
  lemma ConversationReachesController(env: Env, head: seq<Byte>, req: Http.Request, ws: seq<Wire>,
                                      msgs: seq<seq<seq<Byte>>>, chunks: seq<seq<Byte>>)
    requires IsUpgrade(env, head, req) && AllOk(ws) && AllSmall(msgs)
    requires WithoutPings(Frames(ws)) == AllFragments(msgs)
    requires Concat(chunks) == head + Stream(ws) && ReadsFit(env, START, chunks)
    ensures var t, n := Deliver(env, START, chunks), Acted(env, Upgraded(head, req), Frames(ws));
            && Messages(t.log) == Handed(env, [], msgs) && PongsDue(t.log) == PingPayloads(Frames(ws)[..n])
            && (t.phase == if AllAccepted(env, [], msgs) then Ws else Closing)
            && (AllAccepted(env, [], msgs) ==> n == |ws|)
  {
    hide OnFrames;
    hide Acted;
    var s := Upgraded(head, req);
    UpgradeThenFrames(env, head, req, ws, chunks);
    ControlFramesInterleave(env, s, s, Frames(ws));
    OnlyTheRequest(s.log);
    ManyMessages(env, s, msgs);
    PingsGetPongs(env, s, Frames(ws));
    assert [] + Handed(env, [], msgs) == Handed(env, [], msgs);
    var pings := PingPayloads(Frames(ws)[..Acted(env, s, Frames(ws))]);
    assert [] + pings == pings;
  }

  lemma OnlyTheRequest(log: seq<Action>)
    requires |log| == 1 && log[0].Request?
    ensures Messages(log) == [] && PongsDue(log) == []
  {
    assert log[..0] == [];
  }

  // ----- the assembler against a description of what a message is -----

  /** A text or binary frame opens a message. */
  predicate Opens(f: Frame) {
    f.opcode == 0x1 || f.opcode == 0x2
  }

  /** That frame and its continuations carry the data. */
  predicate HasData(f: Frame) {
    f.opcode == 0x0 || Opens(f)
  }

  /** All the data bytes in a list of frames. */
  function DataOf(fs: seq<Frame>): seq<Byte> {
    if fs == [] then []
    else DataOf(fs[..|fs| - 1]) + (if HasData(fs[|fs| - 1]) then fs[|fs| - 1].payload else [])
  }

  /** The message that frame j started is still unfinished before frame n. */
  ghost predicate InProgress(fs: seq<Frame>, j: nat, n: nat)
    requires n <= |fs|
  {
    && j < n && Opens(fs[j])
    && (forall k :: j < k < n ==> !Opens(fs[k]))
    && (forall k :: j <= k < n && HasData(fs[k]) ==> !fs[k].fin)
  }

  /** Frame n finishes the text message that frame j started. */
  ghost predicate Finishes(fs: seq<Frame>, j: nat, n: nat)
    requires n < |fs|
  {
    && HasData(fs[n]) && fs[n].fin
    && (if Opens(fs[n]) then j == n else InProgress(fs, j, n))
    && fs[j].opcode == 0x1
  }

  ghost predicate Holds(s: State, fs: seq<Frame>, j: nat, n: nat)
    requires j < n <= |fs|
  {
    s.opcode == fs[j].opcode && s.msg == if s.opcode == 0x1 then DataOf(fs[j..n]) else []
  }

  /** What the one buffer, one length and one opcode hold after n frames. */
  ghost predicate Assembling(s: State, fs: seq<Frame>, n: nat)
    requires n <= |fs|
  {
    if s.opcode == -1 then s.msg == [] && forall j: nat :: !InProgress(fs, j, n)
    else exists j: nat :: InProgress(fs, j, n) && Holds(s, fs, j, n)
  }

  lemma UniqueStart(fs: seq<Frame>, j: nat, k: nat, n: nat)
    requires n <= |fs| && InProgress(fs, j, n) && InProgress(fs, k, n)
    ensures j == k
  {
  }

  lemma DataOfSnoc(fs: seq<Frame>, j: nat, n: nat)
    requires j <= n < |fs|
    ensures DataOf(fs[j..n + 1]) == DataOf(fs[j..n]) + (if HasData(fs[n]) then fs[n].payload else [])
  {
    assert fs[j..n + 1][..n - j] == fs[j..n];
  }

  /** The controller gets the message that frame n finishes, if it finishes one, and nothing else. */
  ghost predicate HandsOver(before: State, after: State, fs: seq<Frame>, n: nat)
    requires n < |fs|
  {
    && (forall j: nat :: Finishes(fs, j, n) ==>
          Messages(after.log) == Messages(before.log) + [DataOf(fs[j..n + 1])])
    && ((forall j: nat :: !Finishes(fs, j, n)) ==> Messages(after.log) == Messages(before.log))
  }

  lemma StartStep(s: State, t: State, fs: seq<Frame>, n: nat)
    requires n < |fs| && Opens(fs[n])
    requires t.opcode == (if fs[n].fin then -1 else fs[n].opcode)
    requires t.msg == if t.opcode == 0x1 then fs[n].payload else []
    requires HandedText(s, t, if fs[n].fin && fs[n].opcode == 0x1 then Some(fs[n].payload) else None)
    ensures Assembling(t, fs, n + 1) && HandsOver(s, t, fs, n)
  {
    hide Messages;
    assert DataOf(fs[n..n]) == [];
    DataOfSnoc(fs, n, n);
    assert [] + fs[n].payload == fs[n].payload;
    forall j: nat | Finishes(fs, j, n) ensures DataOf(fs[j..n + 1]) == fs[n].payload { }
    if fs[n].fin {
      assert fs[n].opcode == 0x1 ==> Finishes(fs, n, n);
    } else {
      assert InProgress(fs, n, n + 1) && Holds(t, fs, n, n + 1);
    }
  }

  lemma ContinuationStep(s: State, t: State, fs: seq<Frame>, n: nat, j: nat)
    requires n < |fs| && fs[n].opcode == 0x0 && !fs[n].fin && InProgress(fs, j, n) && Holds(s, fs, j, n)
    requires t.opcode == s.opcode && Messages(t.log) == Messages(s.log)
    requires t.msg == if t.opcode == 0x1 then s.msg + fs[n].payload else []
    ensures Assembling(t, fs, n + 1) && HandsOver(s, t, fs, n)
  {
    hide DataOf;
    hide Messages;
    DataOfSnoc(fs, j, n);
    assert InProgress(fs, j, n + 1) && Holds(t, fs, j, n + 1);
  }

  lemma FinishStep(s: State, t: State, fs: seq<Frame>, n: nat, j: nat)
    requires n < |fs| && fs[n].opcode == 0x0 && fs[n].fin && InProgress(fs, j, n) && Holds(s, fs, j, n)
    requires t.opcode == -1 && t.msg == []
    requires HandedText(s, t, if s.opcode == 0x1 then Some(s.msg + fs[n].payload) else None)
    ensures Assembling(t, fs, n + 1) && HandsOver(s, t, fs, n)
  {
    hide DataOf;
    hide Messages;
    var text := DataOf(fs[j..n + 1]);
    DataOfSnoc(fs, j, n);
    forall k: nat | Finishes(fs, k, n) ensures DataOf(fs[k..n + 1]) == text { UniqueStart(fs, k, j, n); }
    assert s.opcode == 0x1 ==> Finishes(fs, j, n);
  }

  ghost predicate HandedText(before: State, after: State, text: Option<seq<Byte>>) {
    match text
    case None => Messages(after.log) == Messages(before.log)
    case Some(m) => Messages(after.log) == Messages(before.log) + [m]
  }

  lemma DataEffect(env: Env, s: State, f: Frame)
    requires s.phase == Ws && !OverLimit(s, f) && HasData(f)
    requires s.opcode != 0x1 ==> s.msg == []
    ensures var t, op := OnFrame(env, s, f), if Opens(f) then f.opcode else s.opcode;
            var text := (if Opens(f) then [] else s.msg) + f.payload;
            && t.opcode == (if f.fin then -1 else op)
            && t.msg == (if t.opcode == 0x1 then text else [])
            && HandedText(s, t, if f.fin && op == 0x1 then Some(text) else None)
  {
  }

  /** A frame that is not data, or a continuation of nothing, leaves the assembler as it was. */
  lemma IdleStep(s: State, t: State, fs: seq<Frame>, n: nat)
    requires n < |fs| && Assembling(s, fs, n)
    requires !HasData(fs[n]) || (s.opcode == -1 && !Opens(fs[n]))
    requires t.opcode == s.opcode && t.msg == s.msg && Messages(t.log) == Messages(s.log)
    ensures Assembling(t, fs, n + 1) && HandsOver(s, t, fs, n)
  {
    if s.opcode == -1 {
      var m := n + 1;
      forall k: nat ensures !InProgress(fs, k, m) { assert !InProgress(fs, k, n); }
    } else {
      var j: nat :| InProgress(fs, j, n) && Holds(s, fs, j, n);
      NoDataStep(s, t, fs, n, j);
    }
  }

  lemma NoDataStep(s: State, t: State, fs: seq<Frame>, n: nat, j: nat)
    requires n < |fs| && !HasData(fs[n]) && InProgress(fs, j, n) && Holds(s, fs, j, n)
    requires t.opcode == s.opcode && t.msg == s.msg && Messages(t.log) == Messages(s.log)
    ensures Assembling(t, fs, n + 1) && HandsOver(s, t, fs, n)
  {
    DataOfSnoc(fs, j, n);
    assert DataOf(fs[j..n]) + [] == DataOf(fs[j..n]);
    assert InProgress(fs, j, n + 1) && Holds(t, fs, j, n + 1);
  }

  lemma AssemblerStep(env: Env, s: State, fs: seq<Frame>, n: nat)
    requires n < |fs| && s.phase == Ws && Assembling(s, fs, n) && !OverLimit(s, fs[n])
    ensures Assembling(OnFrame(env, s, fs[n]), fs, n + 1) && HandsOver(s, OnFrame(env, s, fs[n]), fs, n)
  {
    hide DataOf;
    hide Messages;
    hide HandsOver;
    var t := OnFrame(env, s, fs[n]);
    if HasData(fs[n]) {
      DataEffect(env, s, fs[n]);
      assert [] + fs[n].payload == fs[n].payload;
      if Opens(fs[n]) {
        StartStep(s, t, fs, n);
      } else if s.opcode != -1 {
        var j: nat :| InProgress(fs, j, n) && Holds(s, fs, j, n);
        if fs[n].fin { FinishStep(s, t, fs, n, j); } else { ContinuationStep(s, t, fs, n, j); }
      } else {
        IdleStep(s, t, fs, n);
      }
    } else {
      MessagesSnoc(s.log, Pong(fs[n].payload));
      IdleStep(s, t, fs, n);
    }
  }

  lemma OverLimitCloses(env: Env, s: State, f: Frame)
    requires s.phase == Ws && OverLimit(s, f)
    ensures OnFrame(env, s, f).phase == Closing && OnFrame(env, s, f).log == s.log
  {
  }

  /** Frame n has its effect on a connection that has taken the frames before it: none once it is no
      longer open; over the limit it closes and hands over nothing; otherwise, whether or not it is the
      frame that closes the connection, a text message is handed over exactly when some frame j started
      it and n finishes it, and it is the data of the frames from j to n. */
  ghost predicate Reassembles(env: Env, s: State, fs: seq<Frame>, n: nat)
    requires n < |fs|
  {
    var before, after := OnFrames(env, s, fs[..n]), OnFrames(env, s, fs[..n + 1]);
    if before.phase != Ws then after == before
    else if OverLimit(before, fs[n]) then after.phase == Closing && after.log == before.log
    else HandsOver(before, after, fs, n)
  }

  lemma OneMoreFrame(env: Env, s: State, fs: seq<Frame>, n: nat)
    requires n < |fs|
    ensures var before := OnFrames(env, s, fs[..n]);
            OnFrames(env, s, fs[..n + 1]) == if before.phase == Ws then OnFrame(env, before, fs[n]) else before
  {
    var before, last := OnFrames(env, s, fs[..n]), [fs[n]];
    assert fs[..n + 1] == fs[..n] + last;
    OnFramesConcat(env, s, fs[..n], last);
    assert last[1..] == [];
    if before.phase == Ws { assert OnFrames(env, OnFrame(env, before, fs[n]), []) == OnFrame(env, before, fs[n]); }
  }

  /** What the one buffer, one length and one opcode hold is what the frames so far say. */
  lemma {:induction false} AssemblerInvariant(env: Env, s: State, fs: seq<Frame>, n: nat)
    requires s.phase == Ws && s.opcode == -1 && s.msg == [] && n <= |fs|
    requires OnFrames(env, s, fs[..n]).phase == Ws
    ensures Assembling(OnFrames(env, s, fs[..n]), fs, n)
  {
    hide OnFrame;
    hide OnFrames;
    hide OverLimit;
    if n == 0 {
      NothingYet(env, s, fs);
    } else {
      var before := OnFrames(env, s, fs[..n - 1]);
      OneMoreFrame(env, s, fs, n - 1);
      AssemblerInvariant(env, s, fs, n - 1);
      if OverLimit(before, fs[n - 1]) {
        OverLimitCloses(env, before, fs[n - 1]);
      } else {
        AssemblerStep(env, before, fs, n - 1);
      }
    }
  }

  lemma NothingYet(env: Env, s: State, fs: seq<Frame>)
    requires s.opcode == -1 && s.msg == []
    ensures OnFrames(env, s, fs[..0]) == s && Assembling(s, fs, 0)
  {
  }

  /** Reassembly refines the description at every frame of every list, the closing one included. A stray
      continuation hands over nothing, a new start discards what was unfinished, binary messages are
      dropped. */
  lemma ReassemblyIsCorrect(env: Env, s: State, fs: seq<Frame>, n: nat)
    requires s.phase == Ws && s.opcode == -1 && s.msg == [] && n < |fs|
    ensures Reassembles(env, s, fs, n)
  {
    hide OnFrame;
    hide OnFrames;
    hide OverLimit;
    hide HandsOver;
    hide Assembling;
    var before := OnFrames(env, s, fs[..n]);
    OneMoreFrame(env, s, fs, n);
    if before.phase == Ws {
      AssemblerInvariant(env, s, fs, n);
      if OverLimit(before, fs[n]) {
        OverLimitCloses(env, before, fs[n]);
      } else {
        AssemblerStep(env, before, fs, n);
      }
    }
  }
}
