/** One connection as a function of the bytes it has received: an HTTP request first, then,
    after an upgrade, WebSocket frames that are reassembled into messages. */
module Session {
  import opened Bytes
  import opened WsFrame
  import Http

  const MSG_BUF_SIZE: nat := 1024 * 1024
  const INPUT_BUF_SIZE: nat := MSG_BUF_SIZE + 14
  const MAX_BODY: nat := 8192
  /** The longest key `ws_compute_accept` takes: its buffer also holds a 36-byte suffix and a zero. */
  const MAX_WS_KEY: nat := 219

  datatype Phase = Http | Ws | Closing | Overflowed

  /** What the connection does with what it receives. */
  datatype Action =
    | Request(req: Http.Request, body: seq<Byte>)
    | Message(text: seq<Byte>)
    | Pong(data: seq<Byte>)

  /** The parts that are not modelled: the origin allow-list, and the controller's verdict on
      the last of all text messages handed to it so far. */
  datatype Env = Env(originAllowed: seq<Byte> -> bool, accepts: seq<seq<Byte>> -> bool)

  /** `opcode` is -1 while no message is being assembled. */
  datatype State = State(phase: Phase, input: seq<Byte>, opcode: int, msg: seq<Byte>, log: seq<Action>) {
    predicate Open() {
      phase == Http || phase == Ws
    }
  }

  const START := State(Http, [], -1, [], [])

  /** Once closing, the unread input is dead; it is forgotten here. */
  function Close(s: State): State {
    s.(phase := Closing, input := [])
  }

  function Messages(log: seq<Action>): seq<seq<Byte>> {
    if log == [] then []
    else Messages(log[..|log| - 1]) + (if log[|log| - 1].Message? then [log[|log| - 1].text] else [])
  }

  lemma MessagesSnoc(log: seq<Action>, a: Action)
    ensures Messages(log + [a]) == Messages(log) + (if a.Message? then [a.text] else [])
  {
  }

  /** The payloads of the pings taken so far, in order. */
  function PongsDue(log: seq<Action>): seq<seq<Byte>> {
    if log == [] then []
    else PongsDue(log[..|log| - 1]) + (if log[|log| - 1].Pong? then [log[|log| - 1].data] else [])
  }

  lemma PongsDueSnoc(log: seq<Action>, a: Action)
    ensures PongsDue(log + [a]) == PongsDue(log) + (if a.Pong? then [a.data] else [])
  {
    assert (log + [a])[..|log|] == log;
  }

  predicate Upgrades(env: Env, req: Http.Request) {
    req.IsWsUpgrade() && env.originAllowed(req.origin) && 0 < |req.wsKey| <= MAX_WS_KEY
  }

  function OnRequest(env: Env, s: State, req: Http.Request, body: seq<Byte>): State {
    var t := s.(log := s.log + [Request(req, body)]);
    if Upgrades(env, req) then t.(phase := Ws) else Close(t)
  }

  predicate IsStart(f: Frame) {
    f.opcode == OP_TEXT || f.opcode == OP_BIN
  }

  predicate IsData(f: Frame) {
    IsStart(f) || f.opcode == OP_CONT
  }

  /** A data frame that would take the text message being assembled past the limit. */
  predicate OverLimit(s: State, f: Frame) {
    IsData(f) && (if IsStart(f) then f.opcode else s.opcode) == OP_TEXT
    && (if IsStart(f) then 0 else |s.msg|) + |f.payload| > MSG_BUF_SIZE
  }

  function OnData(env: Env, s: State, f: Frame): State {
    var opcode := if IsStart(f) then f.opcode else s.opcode;
    var sofar := if IsStart(f) then [] else s.msg;
    if OverLimit(s, f) then Close(s.(opcode := opcode, msg := sofar))
    else
      var msg := if opcode == OP_TEXT then sofar + f.payload else sofar;
      if !f.fin then s.(opcode := opcode, msg := msg)
      else
        var t := s.(opcode := -1, msg := [], log := if opcode == OP_TEXT then s.log + [Message(msg)] else s.log);
        if opcode == OP_TEXT && !env.accepts(Messages(t.log)) then Close(t) else t
  }

  function OnFrame(env: Env, s: State, f: Frame): State {
    if IsData(f) then OnData(env, s, f)
    else if f.opcode == OP_PING then s.(log := s.log + [Pong(f.payload)])
    else if f.opcode == OP_CLOSE then Close(s)
    else s
  }

  function TakeRequest(env: Env, s: State, v: Http.Verdict): (r: Option<State>)
    requires v.Parsed? ==> v.consumed <= |s.input|
  {
    match v
    case NeedMore => None
    case BadRequest => Some(Close(s))
    case Parsed(req, n) =>
      var end := n + req.contentLength;
      if req.contentLength > MAX_BODY then Some(Close(s))
      else if |s.input| < end then None
      else Some(OnRequest(env, s.(input := s.input[end..]), req, s.input[n..end]))
  }

  function TakeFrame(env: Env, s: State, v: Verdict): (r: Option<State>)
    requires v.Complete? ==> v.consumed <= |s.input|
  {
    match v
    case Incomplete => None
    case Malformed => Some(Close(s))
    case Complete(f, n) => Some(OnFrame(env, s.(input := s.input[n..]), f))
  }

  /** One turn of the parse loop, if there is something complete to take off the input. */
  function Step(env: Env, s: State): (r: Option<State>)
    ensures r.Some? ==> |r.value.input| < |s.input|
  {
    match s.phase
    case Http => HttpVerdictBounds(s.input); TakeRequest(env, s, Http.Parse(s.input))
    case Ws => WsVerdictBounds(s.input); TakeFrame(env, s, Decode(s.input))
    case _ => None
  }

  lemma HttpVerdictBounds(s: seq<Byte>)
    ensures Http.Parse(s) != Http.NeedMore ==> s != []
    ensures Http.Parse(s).Parsed? ==> 0 < Http.Parse(s).consumed <= |s|
  {
  }

  lemma WsVerdictBounds(s: seq<Byte>)
    ensures Decode(s) != Incomplete ==> s != []
    ensures Decode(s).Complete? ==> 0 < Decode(s).consumed <= |s|
  {
  }

  /** The parse loop: everything complete is taken off the input. */
  function Process(env: Env, s: State): State
    decreases |s.input|
  {
    match Step(env, s)
    case None => s
    case Some(t) => Process(env, t)
  }

  predicate Settled(env: Env, s: State) {
    Step(env, s) == None
  }

  lemma {:induction false} ProcessSettles(env: Env, s: State)
    ensures Settled(env, Process(env, s)) && |Process(env, s).input| <= |s.input|
    decreases |s.input|
  {
    var r := Step(env, s);
    if r.Some? { ProcessSettles(env, r.value); }
  }

  // ----- how the bytes are sliced does not matter -----

  function Append(s: State, x: seq<Byte>): State {
    if s.Open() then s.(input := s.input + x) else s
  }

  lemma OnFrameAppend(env: Env, s: State, f: Frame, x: seq<Byte>)
    requires s.phase == Ws
    ensures OnFrame(env, Append(s, x), f) == Append(OnFrame(env, s, f), x)
  {
  }

  lemma TakeRequestAppend(env: Env, s: State, v: Http.Verdict, x: seq<Byte>)
    requires s.phase == Http && (v.Parsed? ==> v.consumed <= |s.input|) && TakeRequest(env, s, v).Some?
    ensures TakeRequest(env, Append(s, x), v) == Some(Append(TakeRequest(env, s, v).value, x))
  {
    if v.Parsed? && v.req.contentLength <= MAX_BODY {
      var end := v.consumed + v.req.contentLength;
      SliceOfPrefix(s.input, x, v.consumed, end);
      assert (s.input + x)[end..] == s.input[end..] + x;
    }
  }

  lemma TakeFrameAppend(env: Env, s: State, v: Verdict, x: seq<Byte>)
    requires s.phase == Ws && (v.Complete? ==> v.consumed <= |s.input|) && TakeFrame(env, s, v).Some?
    ensures TakeFrame(env, Append(s, x), v) == Some(Append(TakeFrame(env, s, v).value, x))
  {
    if v.Complete? {
      assert (s.input + x)[v.consumed..] == s.input[v.consumed..] + x;
      OnFrameAppend(env, s.(input := s.input[v.consumed..]), v.frame, x);
    }
  }

  lemma StepAppend(env: Env, s: State, x: seq<Byte>)
    requires Step(env, s).Some?
    ensures Step(env, Append(s, x)) == Some(Append(Step(env, s).value, x))
  {
    if s.phase == Http {
      Http.VerdictStable(s.input, x);
      HttpVerdictBounds(s.input);
      TakeRequestAppend(env, s, Http.Parse(s.input), x);
    } else {
      VerdictStable(s.input, x);
      WsVerdictBounds(s.input);
      TakeFrameAppend(env, s, Decode(s.input), x);
    }
  }

  /** Bytes that arrive after some have been processed do what they would have done at once. */
  lemma {:induction false} ProcessAppend(env: Env, s: State, x: seq<Byte>)
    ensures Process(env, Append(Process(env, s), x)) == Process(env, Append(s, x))
    decreases |s.input|
  {
    var r := Step(env, s);
    if r.Some? {
      StepAppend(env, s, x);
      ProcessAppend(env, r.value, x);
    }
  }

  /** One successful read of a nonempty run of bytes; a read that finds the buffer full fails. */
  function Receive(env: Env, s: State, chunk: seq<Byte>): State {
    if !s.Open() then s
    else if |s.input| == INPUT_BUF_SIZE then s.(phase := Overflowed, input := [])
    else Process(env, s.(input := s.input + chunk))
  }

  function Deliver(env: Env, s: State, chunks: seq<seq<Byte>>): State
    decreases |chunks|
  {
    if chunks == [] then s else Deliver(env, Receive(env, s, chunks[0]), chunks[1..])
  }

  /** Every read returns at least one byte and no more than there is room for. */
  predicate ReadsFit(env: Env, s: State, chunks: seq<seq<Byte>>)
    decreases |chunks|
  {
    chunks == [] ||
    (&& chunks[0] != []
     && (s.Open() && |s.input| < INPUT_BUF_SIZE ==> |s.input| + |chunks[0]| <= INPUT_BUF_SIZE)
     && ReadsFit(env, Receive(env, s, chunks[0]), chunks[1..]))
  }

  /** The reference: the same bytes, one read each. */
  function ByteByByte(env: Env, s: State, bytes: seq<Byte>): State
    decreases |bytes|
  {
    if bytes == [] then s else ByteByByte(env, Receive(env, s, [bytes[0]]), bytes[1..])
  }

  ghost predicate Bounded(env: Env, s: State) {
    Settled(env, s) && |s.input| <= INPUT_BUF_SIZE
  }

  lemma ReceiveBounded(env: Env, s: State, chunk: seq<Byte>)
    requires Bounded(env, s)
    requires s.Open() && |s.input| < INPUT_BUF_SIZE ==> |s.input| + |chunk| <= INPUT_BUF_SIZE
    ensures Bounded(env, Receive(env, s, chunk))
  {
    if s.Open() && |s.input| < INPUT_BUF_SIZE { ProcessSettles(env, s.(input := s.input + chunk)); }
  }

  lemma ReceiveSplit(env: Env, s: State, a: seq<Byte>, b: seq<Byte>)
    requires Bounded(env, s) && s.Open() && |s.input| < INPUT_BUF_SIZE
    requires a != [] && b != [] && |s.input| + |a| + |b| <= INPUT_BUF_SIZE
    ensures Receive(env, Receive(env, s, a), b) == Receive(env, s, a + b)
  {
    var t := s.(input := s.input + a);
    ProcessSettles(env, t);
    ProcessAppend(env, t, b);
    AppendTwice(s, a, b);
  }

  lemma {:induction false} ByteByByteConcat(env: Env, s: State, a: seq<Byte>, b: seq<Byte>)
    ensures ByteByByte(env, s, a + b) == ByteByByte(env, ByteByByte(env, s, a), b)
    decreases |a|
  {
    if a == [] {
      assert a + b == b;
    } else {
      assert (a + b)[1..] == a[1..] + b;
      ByteByByteConcat(env, Receive(env, s, [a[0]]), a[1..], b);
    }
  }

  lemma {:induction false} ClosedIgnores(env: Env, s: State, bytes: seq<Byte>)
    requires !s.Open()
    ensures ByteByByte(env, s, bytes) == s
    decreases |bytes|
  {
    if bytes != [] { ClosedIgnores(env, s, bytes[1..]); }
  }

  lemma {:induction false} ReceiveIsByteByByte(env: Env, s: State, chunk: seq<Byte>)
    requires Bounded(env, s) && chunk != []
    requires s.Open() && |s.input| < INPUT_BUF_SIZE ==> |s.input| + |chunk| <= INPUT_BUF_SIZE
    ensures Receive(env, s, chunk) == ByteByByte(env, s, chunk)
    decreases |chunk|
  {
    var first, rest := [chunk[0]], chunk[1..];
    assert chunk == first + rest;
    var t := Receive(env, s, first);
    if !s.Open() || |s.input| == INPUT_BUF_SIZE {
      ClosedIgnores(env, t, rest);
    } else if rest == [] {
      assert chunk == first;
    } else {
      ReceiveBounded(env, s, first);
      ReceiveSplit(env, s, first, rest);
      ProcessSettles(env, s.(input := s.input + first));
      ReceiveIsByteByByte(env, t, rest);
    }
  }

  lemma {:induction false} DeliverIsByteByByte(env: Env, s: State, chunks: seq<seq<Byte>>)
    requires Bounded(env, s) && ReadsFit(env, s, chunks)
    ensures Deliver(env, s, chunks) == ByteByByte(env, s, Concat(chunks))
    ensures Bounded(env, Deliver(env, s, chunks))
    decreases |chunks|
  {
    if chunks != [] {
      var c := chunks[0];
      ReceiveIsByteByByte(env, s, c);
      ReceiveBounded(env, s, c);
      DeliverIsByteByByte(env, Receive(env, s, c), chunks[1..]);
      ByteByByteConcat(env, s, c, Concat(chunks[1..]));
    }
  }

  /** Chunking independence: two ways of slicing the same bytes into reads that fit lead to the
      same phase (buffer-full failure included), the same actions in the same order and, while
      the connection is open, the same unread bytes. */
  lemma ChunkingIndependence(env: Env, s: State, one: seq<seq<Byte>>, other: seq<seq<Byte>>)
    requires Bounded(env, s) && ReadsFit(env, s, one) && ReadsFit(env, s, other)
    requires Concat(one) == Concat(other)
    ensures Deliver(env, s, one) == Deliver(env, s, other)
  {
    DeliverIsByteByByte(env, s, one);
    DeliverIsByteByByte(env, s, other);
  }

  // ----- one request -----

  /** What a request must be for the connection to be turned over to WebSocket: from an allowed origin, asking
      for the upgrade in both header fields, with a key that fits. */
  ghost predicate MayUpgrade(env: Env, req: Http.Request) {
    && env.originAllowed(req.origin)
    && req.upgradeHeader && req.connectionUpgrade
    && 1 <= |req.wsKey| <= 219
  }

  /** At most one request is ever performed, before everything else. Frames are taken, messages handed over and
      pings answered only behind one that may upgrade; behind any other the connection is closing. */
  ghost predicate Orderly(env: Env, s: State) {
    && (s.phase == Http ==> s.log == [])
    && (s.phase == Ws ==> s.log != [])
    && (s.log != [] ==> s.log[0].Request?)
    && (s.phase == Ws || |s.log| > 1 ==> MayUpgrade(env, s.log[0].req))
    && (s.log != [] && !MayUpgrade(env, s.log[0].req) ==> s.phase == Closing && |s.log| == 1)
    && forall k :: 0 < k < |s.log| ==> !s.log[k].Request?
  }

  lemma TakeFrameOrderly(env: Env, s: State, f: Frame)
    requires s.phase == Ws && Orderly(env, s)
    ensures Orderly(env, OnFrame(env, s, f))
  {
    hide MayUpgrade;
    hide Messages;
  }

  lemma StepOrderly(env: Env, s: State)
    requires Orderly(env, s) && Step(env, s).Some?
    ensures Orderly(env, Step(env, s).value)
  {
    hide Decode;
    hide Http.Parse;
    hide OnFrame;
    if s.phase == Ws && Decode(s.input).Complete? {
      WsVerdictBounds(s.input);
      TakeFrameOrderly(env, s.(input := s.input[Decode(s.input).consumed..]), Decode(s.input).frame);
    }
  }

  lemma {:induction false} ProcessOrderly(env: Env, s: State)
    requires Orderly(env, s)
    ensures Orderly(env, Process(env, s))
    decreases |s.input|
  {
    hide Step;
    hide Orderly;
    var r := Step(env, s);
    if r.Some? {
      StepOrderly(env, s);
      ProcessOrderly(env, r.value);
    }
  }

  /** Over every run of reads, of any size. */
  lemma {:induction false} DeliverOrderly(env: Env, s: State, chunks: seq<seq<Byte>>)
    requires Orderly(env, s)
    ensures Orderly(env, Deliver(env, s, chunks))
    decreases |chunks|
  {
    hide Process;
    hide MayUpgrade;
    if chunks != [] {
      ProcessOrderly(env, s.(input := s.input + chunks[0]));
      DeliverOrderly(env, Receive(env, s, chunks[0]), chunks[1..]);
    }
  }

  /** As long as nothing overflowed, a bounded buffer did what an unbounded one would have done. */
  lemma {:induction false} DeliverIsProcess(env: Env, s: State, chunks: seq<seq<Byte>>)
    requires Bounded(env, s) && ReadsFit(env, s, chunks) && Deliver(env, s, chunks).phase != Overflowed
    ensures Deliver(env, s, chunks) == Process(env, Append(s, Concat(chunks)))
    decreases |chunks|
  {
    if chunks == [] {
      assert s.input + [] == s.input;
    } else {
      var c, rest := chunks[0], chunks[1..];
      var t := Receive(env, s, c);
      ReceiveBounded(env, s, c);
      if t.phase == Overflowed { StaysOverflowed(env, t, rest); }
      DeliverIsProcess(env, t, rest);
      ReceiveIsProcess(env, s, c);
      ProcessAppend(env, Append(s, c), Concat(rest));
      AppendTwice(s, c, Concat(rest));
    }
  }

  lemma ReceiveIsProcess(env: Env, s: State, chunk: seq<Byte>)
    requires Settled(env, s) && Receive(env, s, chunk).phase != Overflowed
    ensures Receive(env, s, chunk) == Process(env, Append(s, chunk))
  {
  }

  lemma AppendTwice(s: State, a: seq<Byte>, b: seq<Byte>)
    ensures Append(Append(s, a), b) == Append(s, a + b)
  {
  }

  lemma {:induction false} StaysOverflowed(env: Env, s: State, chunks: seq<seq<Byte>>)
    requires s.phase == Overflowed
    ensures Deliver(env, s, chunks) == s
    decreases |chunks|
  {
    if chunks != [] { StaysOverflowed(env, s, chunks[1..]); }
  }

  /** One more read. */
  lemma {:induction false} DeliverSnoc(env: Env, s: State, chunks: seq<seq<Byte>>, c: seq<Byte>)
    ensures Deliver(env, s, chunks + [c]) == Receive(env, Deliver(env, s, chunks), c)
    ensures ReadsFit(env, s, chunks + [c]) <==>
              ReadsFit(env, s, chunks) && ReadsFit(env, Deliver(env, s, chunks), [c])
    decreases |chunks|
  {
    if chunks == [] {
      assert [] + [c] == [c] && [c][1..] == [];
    } else {
      assert (chunks + [c])[1..] == chunks[1..] + [c];
      DeliverSnoc(env, Receive(env, s, chunks[0]), chunks[1..], c);
    }
  }

  /** One more read that fits, on an open connection. */
  lemma DeliverOneMore(env: Env, s: State, chunks: seq<seq<Byte>>, c: seq<Byte>)
    requires ReadsFit(env, s, chunks) && c != []
    requires var t := Deliver(env, s, chunks); t.Open() && |t.input| + |c| <= INPUT_BUF_SIZE
    ensures ReadsFit(env, s, chunks + [c])
    ensures var t := Deliver(env, s, chunks); Deliver(env, s, chunks + [c]) == Process(env, t.(input := t.input + c))
  {
    DeliverSnoc(env, s, chunks, c);
  }
}
