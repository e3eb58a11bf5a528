/** One client slot: its buffers, its output queue and its turn of the event loop. */
module Connection {
  import opened Bytes
  import opened WsFrame
  import opened Tls
  import WsCodec
  import Http
  import Protocol
  import Session

  const BUF_SIZE: nat := 64 * 1024
  const OUT_SIZE: nat := 2 * BUF_SIZE
  const IO_TIMEOUT := 10

  /** A poll interest of at most one kind: 0, POLLIN or POLLOUT. */
  datatype Wait = NoWait | ForInput | ForOutput

  datatype Mask = Mask(input: bool, output: bool)

  /** What poll reports: readable, writable, or hung up / error / invalid. */
  datatype Revents = Revents(input: bool, output: bool, broken: bool)

  predicate Hits(ev: Revents, w: Wait) {
    (w == ForInput && ev.input) || (w == ForOutput && ev.output)
  }

  datatype Phase = Handshake | Http | Ws | Closing

  /** What was put on the output queue: an HTTP response part, or a frame. */
  datatype Item = Raw(bytes: seq<Byte>) | Framed(frame: Outgoing)

  ghost predicate ItemOk(x: Item) {
    x.Framed? ==> x.frame.Sendable()
  }

  ghost function ItemBytes(x: Item): seq<Byte>
    requires ItemOk(x)
  {
    match x case Raw(b) => b case Framed(f) => ServerFrame(f.opcode, f.payload)
  }

  ghost predicate ItemsOk(items: seq<Item>) {
    forall k :: 0 <= k < |items| ==> ItemOk(items[k])
  }

  ghost function ItemsBytes(items: seq<Item>): seq<Byte>
    requires ItemsOk(items)
  {
    if items == [] then []
    else
      assert ItemOk(items[|items| - 1]);
      ItemsBytes(items[..|items| - 1]) + ItemBytes(items[|items| - 1])
  }

  lemma ItemsSnoc(items: seq<Item>, x: Item)
    requires ItemsOk(items) && ItemOk(x)
    ensures ItemsOk(items + [x]) && ItemsBytes(items + [x]) == ItemsBytes(items) + ItemBytes(x)
  {
  }

  /** The output side of a connection: what the library took over plus what is queued is what was
      accepted; the retry rule was never broken; and unless the connection has failed, the fields say
      what is due: an unfinished write of the first writeLen bytes, or a read waiting to write. */
  ghost predicate Conserved(items: seq<Item>, calls: seq<Tls.Call>, queue: seq<Byte>) {
    ItemsOk(items) && Written(calls) + queue == ItemsBytes(items) && Disciplined(calls)
  }

  /** The socket event that the last call was told to wait for. */
  function WaitAfter(calls: seq<Tls.Call>): Wait {
    if calls == [] then NoWait
    else match calls[|calls| - 1]
         case Write(_, WriteWantsRead) => ForInput
         case Write(_, WriteWantsWrite) => ForOutput
         case Read(ReadWantsRead) => ForInput
         case Read(ReadWantsWrite) => ForOutput
         case _ => NoWait
  }

  ghost predicate Due(calls: seq<Tls.Call>, queue: seq<Byte>, writeLen: nat, writeWait: Wait, readWait: Wait)
    requires writeLen <= |queue|
  {
    && (writeLen > 0 <==> writeWait != NoWait)
    && (writeLen > 0 ==> readWait != ForOutput)
    && (writeLen > 0 ==> writeWait == WaitAfter(calls))
    && DutyAfter(calls) == if writeLen > 0 then RetryWrite(queue[..writeLen])
                           else if readWait == ForOutput then RetryRead else Free
  }

  lemma AcceptsOutput(items: seq<Item>, calls: seq<Tls.Call>, queue: seq<Byte>, x: Item, data: seq<Byte>, writeLen: nat)
    requires Conserved(items, calls, queue) && ItemOk(x) && ItemBytes(x) == data && writeLen <= |queue|
    ensures Conserved(items + [x], calls, queue + data) && (queue + data)[..writeLen] == queue[..writeLen]
  {
    ItemsSnoc(items, x);
    Associates(Written(calls), queue, data);
  }

  /** One write of a prefix of the queue, whatever its outcome, keeps the books. */
  lemma AfterWrite(items: seq<Item>, calls: seq<Tls.Call>, queue: seq<Byte>, len: nat, r: WriteResult)
    requires Conserved(items, calls, queue) && 0 < len <= |queue| && (r.Wrote? ==> r.n <= len)
    requires DutyAfter(calls) == Free || DutyAfter(calls) == RetryWrite(queue[..len])
    ensures var more := calls + [Tls.Write(queue[..len], r)];
            && Conserved(items, more, if r.Wrote? then queue[r.n..] else queue)
            && (r.Wrote? ==> DutyAfter(more) == Free)
            && (r.WriteWantsRead? || r.WriteWantsWrite? ==> DutyAfter(more) == RetryWrite(queue[..len]))
            && (r.WriteWantsRead? ==> WaitAfter(more) == ForInput)
            && (r.WriteWantsWrite? ==> WaitAfter(more) == ForOutput)
  {
    var call := Tls.Write(queue[..len], r);
    DisciplinedSnoc(calls, call);
    WrittenSnoc(calls, call);
    if r.Wrote? {
      assert Taken(call) == queue[..r.n];
      Associates(Written(calls), queue[..r.n], queue[r.n..]);
      assert queue == queue[..r.n] + queue[r.n..];
    } else {
      assert Written(calls) + [] == Written(calls);
    }
  }

  lemma AfterRead(items: seq<Item>, calls: seq<Tls.Call>, queue: seq<Byte>, r: ReadResult)
    requires Conserved(items, calls, queue) && (DutyAfter(calls) == Free || DutyAfter(calls) == RetryRead)
    ensures var more := calls + [Tls.Read(r)];
            Conserved(items, more, queue) && DutyAfter(more) == if r.ReadWantsWrite? then RetryRead else Free
  {
    DisciplinedSnoc(calls, Tls.Read(r));
    WrittenSnoc(calls, Tls.Read(r));
    assert Written(calls) + [] == Written(calls);
  }

  /** The size of an unmasked frame, with the shortest form of its length: section 5.2 of RFC 6455. */
  function FrameSize(len: nat): nat {
    len + (if len <= 125 then 2 else if len <= 65535 then 4 else 10)
  }

  lemma FrameSizeIs(len: nat)
    ensures FrameSize(len) == KeyOffset(ShortestForm(len)) + len
  {
  }

  /** After an upgrade: one response, then only frames; or nothing at all, if not even that could be queued. */
  ghost predicate UpgradeItems(items: seq<Item>, failed: bool) {
    (items == [] && failed) || (items != [] && items[0].Raw? && forall k :: 0 < k < |items| ==> items[k].Framed?)
  }

  lemma UpgradeStarts(hdr: seq<Byte>)
    ensures UpgradeItems([Raw(hdr)], false)
  {
  }

  lemma UpgradeGrows(items: seq<Item>, failed: bool, f: Outgoing)
    requires UpgradeItems(items, failed)
    ensures UpgradeItems(items, true) && (!failed ==> UpgradeItems(items + [Framed(f)], false))
  {
  }

  /** The parts of the daemon around a connection that are not modelled: response texts, the greeting
      of a new controller, and what the controller sends in answer to the last of all messages so far. */
  datatype Host = Host(
    respond: (Http.Request, seq<Byte>) -> seq<seq<Byte>>,
    switching: Http.Request -> seq<Byte>,
    welcome: seq<Byte>,
    replies: seq<seq<Byte>> -> seq<seq<Byte>>)

  function RawItems(parts: seq<seq<Byte>>): seq<Item> {
    seq(|parts|, k requires 0 <= k < |parts| => Raw(parts[k]))
  }

  function TextItems(texts: seq<seq<Byte>>): seq<Item> {
    seq(|texts|, k requires 0 <= k < |texts| => Framed(Outgoing(OP_TEXT, texts[k])))
  }

  /** What the last action of a log puts on the output queue. */
  function Answer(host: Host, env: Session.Env, log: seq<Session.Action>): seq<Item>
    requires log != []
  {
    match log[|log| - 1]
    case Request(req, body) =>
      if Session.Upgrades(env, req) then [Raw(host.switching(req)), Framed(Outgoing(OP_TEXT, host.welcome))]
      else RawItems(host.respond(req, body))
    case Message(_) => TextItems(host.replies(Session.Messages(log)))
    case Pong(data) => [Framed(Outgoing(OP_PONG, data))]
  }

  /** What the actions after the first `from` put there, in order. */
  function Answers(host: Host, env: Session.Env, log: seq<Session.Action>, from: nat): seq<Item>
    requires from <= |log|
  {
    if |log| == from then [] else Answers(host, env, log[..|log| - 1], from) + Answer(host, env, log)
  }

  /** The output side's record of a connection: its actions, what was queued, whether it has failed. */
  datatype Account = Account(log: seq<Session.Action>, items: seq<Item>, failed: bool)

  /** Unless the connection fails, the queue has been given the answers to all actions since r, in order. */
  ghost predicate Answered(host: Host, env: Session.Env, r: Account, t: Account) {
    && r.log <= t.log && (r.failed ==> t.failed)
    && (!t.failed ==> t.items == r.items + Answers(host, env, t.log, |r.log|))
  }

  /** The same for at most one action. */
  ghost predicate AnsweredOne(host: Host, env: Session.Env, r: Account, t: Account) {
    && (r.failed ==> t.failed)
    && (|| (t.log == r.log && (!t.failed ==> t.items == r.items))
        || (|t.log| == |r.log| + 1 && t.log[..|r.log|] == r.log
            && (!t.failed ==> t.items == r.items + Answer(host, env, t.log))))
  }

  lemma AnsweredNone(host: Host, env: Session.Env, r: Account)
    ensures Answered(host, env, r, r)
  {
  }

  lemma AnsweredFailure(host: Host, env: Session.Env, r: Account, t: Account)
    requires t == r.(failed := t.failed) && (r.failed ==> t.failed)
    ensures Answered(host, env, r, t)
  {
  }

  lemma AnsweredMore(host: Host, env: Session.Env, r: Account, t: Account, u: Account)
    requires Answered(host, env, r, t) && AnsweredOne(host, env, t, u)
    ensures Answered(host, env, r, u)
  {
  }

  lemma {:induction false} AnswersSplit(host: Host, env: Session.Env, log: seq<Session.Action>, from: nat, mid: nat)
    requires from <= mid <= |log|
    ensures Answers(host, env, log, from) == Answers(host, env, log[..mid], from) + Answers(host, env, log, mid)
    decreases |log|
  {
    if |log| == mid {
      assert log[..mid] == log;
    } else {
      var front := log[..|log| - 1];
      AnswersSplit(host, env, front, from, mid);
      assert front[..mid] == log[..mid];
      Associates(Answers(host, env, log[..mid], from), Answers(host, env, front, mid), Answer(host, env, log));
    }
  }

  lemma AnsweredTwice(host: Host, env: Session.Env, r: Account, t: Account, u: Account)
    requires Answered(host, env, r, t) && Answered(host, env, t, u)
    ensures Answered(host, env, r, u)
  {
    AnswersSplit(host, env, u.log, |r.log|, |t.log|);
    assert u.log[..|t.log|] == t.log;
    Associates(r.items, Answers(host, env, t.log, |r.log|), Answers(host, env, u.log, |t.log|));
  }

  ghost predicate AllZero(a: array<Byte>)
    reads a
  {
    forall k :: 0 <= k < a.Length ==> a[k] == 0
  }

  /** The payloads of the queued frames with that opcode, in order. */
  ghost function Payloads(items: seq<Item>, opcode: nat): seq<seq<Byte>> {
    if items == [] then []
    else
      var x := items[|items| - 1];
      Payloads(items[..|items| - 1], opcode) + (if x.Framed? && x.frame.opcode == opcode then [x.frame.payload] else [])
  }

  lemma PayloadsSnoc(items: seq<Item>, x: Item, opcode: nat)
    ensures x.Framed? && x.frame.opcode == opcode ==>
              Payloads(items + [x], opcode) == Payloads(items, opcode) + [x.frame.payload]
    ensures !(x.Framed? && x.frame.opcode == opcode) ==> Payloads(items + [x], opcode) == Payloads(items, opcode)
  {
    assert (items + [x])[..|items|] == items;
  }

  /** Unless the connection has failed, every ping has its pong, in order, whatever else was sent in between. */
  ghost predicate PingsAnswered(b: Account) {
    !b.failed ==> Payloads(b.items, OP_PONG) == Session.PongsDue(b.log)
  }

  lemma {:induction false} PayloadsConcat(a: seq<Item>, b: seq<Item>, opcode: nat)
    ensures Payloads(a + b, opcode) == Payloads(a, opcode) + Payloads(b, opcode)
    decreases |b|
  {
    if b == [] {
      assert a + b == a;
    } else {
      assert (a + b)[..|a + b| - 1] == a + b[..|b| - 1];
      PayloadsConcat(a, b[..|b| - 1], opcode);
    }
  }

  lemma {:induction false} NoneOf(items: seq<Item>, opcode: nat)
    requires forall k :: 0 <= k < |items| && items[k].Framed? ==> items[k].frame.opcode != opcode
    ensures Payloads(items, opcode) == []
    decreases |items|
  {
    if items != [] { NoneOf(items[..|items| - 1], opcode); }
  }

  lemma AnswerPongs(host: Host, env: Session.Env, log: seq<Session.Action>)
    requires log != []
    ensures Session.PongsDue(log) == Session.PongsDue(log[..|log| - 1]) + Payloads(Answer(host, env, log), OP_PONG)
  {
    hide Payloads;
    hide Session.Upgrades;
    hide Session.Messages;
    match log[|log| - 1]
    case Pong(data) => OnePong(data);
    case _ => NoneOf(Answer(host, env, log), OP_PONG);
  }

  lemma OnePong(data: seq<Byte>)
    ensures Payloads([Framed(Outgoing(OP_PONG, data))], OP_PONG) == [data]
  {
    assert [Framed(Outgoing(OP_PONG, data))][..0] == [];
  }

  lemma {:induction false} AnswersPongs(host: Host, env: Session.Env, log: seq<Session.Action>, from: nat)
    requires from <= |log|
    ensures Session.PongsDue(log) == Session.PongsDue(log[..from]) + Payloads(Answers(host, env, log, from), OP_PONG)
    decreases |log|
  {
    hide Answer;
    if |log| == from {
      assert log[..from] == log;
    } else {
      var front := log[..|log| - 1];
      AnswersPongs(host, env, front, from);
      AnswerPongs(host, env, log);
      assert front[..from] == log[..from];
      PayloadsConcat(Answers(host, env, front, from), Answer(host, env, log), OP_PONG);
    }
  }

  lemma AnsweredPongs(host: Host, env: Session.Env, r: Account, t: Account)
    requires Answered(host, env, r, t) && PingsAnswered(r)
    ensures PingsAnswered(t)
  {
    hide Payloads;
    hide Session.PongsDue;
    hide Answers;
    AnswersPongs(host, env, t.log, |r.log|);
    assert t.log[..|r.log|] == r.log;
    PayloadsConcat(r.items, Answers(host, env, t.log, |r.log|), OP_PONG);
  }

  /** Texts sent in between are no pongs. */
  lemma TextsInBetween(r: Account, t: Account, texts: seq<seq<Byte>>)
    requires PingsAnswered(r) && t.log == r.log && (r.failed ==> t.failed)
    requires !t.failed ==> t.items == r.items + TextItems(texts)
    ensures PingsAnswered(t)
  {
    NoneOf(TextItems(texts), OP_PONG);
    PayloadsConcat(r.items, TextItems(texts), OP_PONG);
    assert Payloads(r.items, OP_PONG) + [] == Payloads(r.items, OP_PONG);
  }

  /** What one turn of the parse loop does in the HTTP phase, by the verdict on its input. */
  lemma HttpTurn(env: Session.Env, s: Session.State)
    requires s.phase == Session.Http
    ensures match Http.Parse(s.input)
            case NeedMore => Session.Step(env, s) == None
            case BadRequest => Session.Step(env, s) == Some(Session.Close(s))
            case Parsed(req, n) =>
              var end := n + req.contentLength;
              && n <= |s.input|
              && Session.Step(env, s) ==
                 if req.contentLength > Session.MAX_BODY then Some(Session.Close(s))
                 else if |s.input| < end then None
                 else Some(Session.OnRequest(env, s.(input := s.input[end..]), req, s.input[n..end]))
  {
    hide Http.Parse;
    hide Session.OnRequest;
    Session.HttpVerdictBounds(s.input);
  }

  lemma RequestOnly(req: Http.Request, body: seq<Byte>)
    ensures Session.Messages([]) == [] && Session.Messages([Session.Request(req, body)]) == []
  {
    assert [Session.Request(req, body)][..0] == [];
  }

  /** What a turn of the loop goes by: the fields it looks at, and the calls made so far. */
  datatype Glance = Glance(
    phase: Phase, failed: bool, overrun: bool, lost: bool, tlsWait: Wait, outlen: nat, writeLen: nat, writeWait: Wait,
    readWait: Wait, inlen: nat, acceptedAt: int, writeStarted: int, calls: seq<Tls.Call>)
  {
    /** Ten seconds for the handshake and the request, and for the queue to move. */
    predicate Overdue(now: int) {
      || (phase in {Handshake, Http} && now - acceptedAt >= 10)
      || (outlen > 0 && now - writeStarted >= 10)
    }

    /** When the loop writes: output is queued, no read waits to write, and the socket is as an unfinished
        write wants it. */
    predicate WritesNow(ev: Revents) {
      outlen > 0 && readWait != ForOutput && (writeWait == NoWait || Hits(ev, writeWait))
    }

    /** When the events alone make the loop read, once no write is pending. */
    predicate ReadsNow(ev: Revents) {
      phase != Closing && (if readWait == NoWait then ev.input else Hits(ev, readWait))
    }

    /** Whether a write is left unfinished, after the write, if any, that comes first. */
    predicate LeavesPending(ev: Revents, made: seq<Tls.Call>) {
      if WritesNow(ev) then made != [] && made[0].Write? && !made[0].result.Wrote? else writeLen > 0
    }
  }

  /** A connection just accepted. */
  function NewLook(now: int): Glance {
    Glance(Handshake, false, false, false, ForInput, 0, 0, NoWait, NoWait, 0, now, 0, [])
  }

  /** A device event given to the controller, and what the controller then sent. */
  datatype Felt = Felt(event: Protocol.Event, texts: seq<seq<Byte>>)

  /** What a turn does with the library: a step of the handshake, data calls, and asking whether decrypted data
      is left. */
  datatype Deeds = Deeds(now: int, accept: Option<AcceptResult>, made: seq<Tls.Call>, told: seq<bool>)

  predicate GotData(call: Tls.Call) {
    call.Read? && call.got.Data?
  }

  predicate Broke(call: Tls.Call) {
    match call case Read(r) => r.ReadFails? case Write(_, r) => r.WriteFails?
  }

  /** Reads follow one another, at most 16 of them, as long as they return data and the library then says that
      more is decrypted. */
  ghost predicate Rounds(gets: seq<Tls.Call>, told: seq<bool>) {
    && |told| <= |gets| <= |told| + 1 && |gets| <= 16
    && (forall k :: 0 <= k < |gets| ==> gets[k].Read?)
    && forall k :: 0 <= k < |gets| - 1 ==> GotData(gets[k]) && told[k]
  }

  /** They end only with a read that returned nothing, when nothing is left, or after 16. */
  ghost predicate Drained(gets: seq<Tls.Call>, told: seq<bool>) {
    gets == [] || |gets| == 16 || !GotData(gets[|gets| - 1]) || (|told| == |gets| && !told[|told| - 1])
  }

  ghost predicate Steady(gets: seq<Tls.Call>, told: seq<bool>) {
    |gets| == |told| && forall k :: 0 <= k < |gets| ==> GotData(gets[k]) && told[k]
  }

  lemma OneMoreRound(gets: seq<Tls.Call>, told: seq<bool>, call: Tls.Call, answer: seq<bool>)
    requires Steady(gets, told) && |gets| < 16 && call.Read? && |answer| <= 1
    ensures Rounds(gets + [call], told + answer)
    ensures answer == [true] && GotData(call) ==> Steady(gets + [call], told + answer)
    ensures answer == [false] || !GotData(call) ==> Drained(gets + [call], told + answer)
  {
  }

  lemma SteadyRounds(gets: seq<Tls.Call>, told: seq<bool>)
    requires Steady(gets, told) && |gets| <= 16
    ensures Rounds(gets, told) && (|gets| == 16 ==> Drained(gets, told))
  {
  }

  lemma SteadyGoesOn(gets: seq<Tls.Call>, told: seq<bool>)
    requires Steady(gets, told) && gets != []
    ensures !Broke(gets[|gets| - 1])
  {
  }

  /** What the library said between the reads: the first answer is the one that decides whether to read at all,
      if the events do not. */
  function Between(g: Glance, ev: Revents, told: seq<bool>): seq<bool> {
    if g.ReadsNow(ev) || told == [] then told else told[1..]
  }

  /** The reads of a turn, behind its write. */
  function ReadsIn(g: Glance, ev: Revents, made: seq<Tls.Call>): seq<Tls.Call> {
    if g.WritesNow(ev) && made != [] then made[1..] else made
  }

  /** The input part of a turn: nothing behind an unfinished write or once the connection closes; otherwise
      reads, exactly when the events ask for them or the library has decrypted data left, and there is room. */
  ghost predicate TookInput(g: Glance, ev: Revents, pending: bool, gets: seq<Tls.Call>, told: seq<bool>) {
    if pending || g.phase == Closing then gets == [] && told == []
    else
      && (g.ReadsNow(ev) || told != [])
      && Rounds(gets, Between(g, ev, told))
      && if g.inlen < Session.INPUT_BUF_SIZE && (g.ReadsNow(ev) || told[0]) then gets != []
         else gets == [] && Between(g, ev, told) == []
  }

  /** The data calls of a turn: one write exactly when the loop writes, and first; then its reads. */
  ghost predicate Exchanged(g: Glance, ev: Revents, made: seq<Tls.Call>, told: seq<bool>) {
    && (g.WritesNow(ev) ==> made != [] && made[0].Write?)
    && TookInput(g, ev, g.LeavesPending(ev, made), ReadsIn(g, ev, made), told)
  }

  lemma TurnMade(g: Glance, ev: Revents, first: seq<Tls.Call>, gets: seq<Tls.Call>, told: seq<bool>)
    requires if g.WritesNow(ev) then |first| == 1 && first[0].Write? else first == []
    requires TookInput(g, ev, g.LeavesPending(ev, first), gets, told)
    ensures Exchanged(g, ev, first + gets, told) && ReadsIn(g, ev, first + gets) == gets
  {
    hide Rounds;
    if g.WritesNow(ev) {
      assert (first + gets)[1..] == gets;
    } else {
      assert first + gets == gets;
      if g.LeavesPending(ev, first) { assert g.LeavesPending(ev, first + gets); }
    }
  }

  /** Completing the handshake changes nothing that the data part of a turn goes by. */
  lemma PhaseOnly(g: Glance, ev: Revents, made: seq<Tls.Call>, told: seq<bool>)
    requires g.phase == Handshake
    ensures ReadsIn(g.(phase := Http), ev, made) == ReadsIn(g, ev, made)
    ensures Between(g.(phase := Http), ev, told) == Between(g, ev, told)
  {
  }

  lemma NoInput(g: Glance, ev: Revents)
    requires g.writeLen > 0 || g.phase == Closing
    ensures TookInput(g, ev, g.writeLen > 0, [], []) && Drained([], Between(g, ev, []))
  {
  }

  lemma NoReads()
    ensures Steady([], []) && Rounds([], []) && Drained([], [])
  {
  }

  /** Behind a write that fails nothing is read. */
  lemma WriteLast(g: Glance, ev: Revents, first: seq<Tls.Call>, gets: seq<Tls.Call>, told: seq<bool>)
    requires if g.WritesNow(ev) then |first| == 1 && first[0].Write? else first == []
    requires TookInput(g, ev, g.LeavesPending(ev, first), gets, told)
    ensures gets != [] ==> (first + gets)[|first + gets| - 1] == gets[|gets| - 1]
                            && (first != [] ==> !Broke(first[0]))
    ensures gets == [] ==> first + gets == first
  {
    hide Rounds;
  }

  lemma InputTaken(g: Glance, ev: Revents, asked: seq<bool>, gets: seq<Tls.Call>, more: seq<bool>)
    requires g.phase != Closing && Rounds(gets, more)
    requires if g.ReadsNow(ev) then asked == [] else |asked| == 1
    requires if g.inlen < Session.INPUT_BUF_SIZE && (g.ReadsNow(ev) || asked[0]) then gets != []
             else gets == [] && more == []
    ensures TookInput(g, ev, false, gets, asked + more) && Between(g, ev, asked + more) == more
  {
    hide Rounds;
    if asked == [] {
      assert asked + more == more;
    } else {
      assert (asked + more)[1..] == more && (asked + more)[0] == asked[0];
    }
  }

  lemma SameInput(g: Glance, h: Glance, ev: Revents, pending: bool, gets: seq<Tls.Call>, told: seq<bool>)
    requires TookInput(h, ev, pending, gets, told)
    requires g.phase == h.phase && g.readWait == h.readWait && g.inlen == h.inlen
    ensures TookInput(g, ev, pending, gets, told) && Between(g, ev, told) == Between(h, ev, told)
  {
  }

  /** A whole turn: nothing for a connection that hung up, has failed or is overdue; a step of the handshake
      exactly when the socket is as the last one wants it, and data calls only once it is complete. */
  ghost predicate Fair(g: Glance, ev: Revents, d: Deeds) {
    if g.failed || ev.broken || g.Overdue(d.now) then d.accept == None && d.made == [] && d.told == []
    else if g.phase == Handshake then
      && (d.accept.Some? <==> Hits(ev, g.tlsWait))
      && (if d.accept == Some(Accepted) then Exchanged(g.(phase := Http), ev, d.made, d.told)
          else d.made == [] && d.told == [])
    else d.accept == None && Exchanged(g, ev, d.made, d.told)
  }

  /** What makes a turn give its connection up, apart from a full buffer or an answer that does not fit. */
  predicate GivesUp(g: Glance, ev: Revents, d: Deeds) {
    || g.lost || ev.broken || g.Overdue(d.now) || d.accept == Some(AcceptFails)
    || (d.made != [] && Broke(d.made[|d.made| - 1]))
  }

  /** A turn and how the connection stands at its end: it has made those calls, all obey the retry rule, and it
      stays in its slot unless it has failed or, closing, has nothing left to write. It fails when the turn gives
      it up, when its input buffer is full, or when an answer does not fit the queue. As long as it goes on, it
      has read all that was decrypted, or 16 times. */
  ghost predicate Serves(g: Glance, ev: Revents, d: Deeds, used: bool, end: Glance) {
    && Fair(g, ev, d) && Disciplined(g.calls + d.made)
    && end.calls == g.calls + d.made
    && (used <==> !end.failed && !(end.phase == Closing && end.outlen == 0))
    && end.failed == (end.overrun || end.lost) && (g.overrun ==> end.overrun)
    && (GivesUp(g, ev, d) ==> end.lost)
    && (end.lost ==> GivesUp(g, ev, d) || end.inlen == Session.INPUT_BUF_SIZE)
    && (!end.failed && end.phase in {Http, Ws} ==> Drained(ReadsIn(g, ev, d.made), Between(g, ev, d.told)))
  }

  /** What the library and the controller of a slot answered, with any outcome they may have: all of it is on
      record. */
  class Tape {
    /** How the steps of handshakes went. */
    ghost var shakes: seq<AcceptResult>
    /** What the library said each time it was asked whether decrypted data is left. */
    ghost var told: seq<bool>
    /** Whether the library had a TLS object for each socket put into the slot. */
    ghost var secured: seq<bool>
    /** The device events that controllers were given, and what they then sent. */
    ghost var felt: seq<Felt>

    constructor ()
      ensures shakes == [] && told == [] && secured == [] && felt == []
    {
      shakes, told, secured, felt := [], [], [], [];
    }

    method SslAccept() returns (r: AcceptResult)
      modifies this`shakes
      ensures shakes == old(shakes) + [r]
    {
      r := *;
      shakes := shakes + [r];
    }

    method SslPending() returns (b: bool)
      modifies this`told
      ensures told == old(told) + [b]
    {
      b := *;
      told := told + [b];
    }

    method SslNew() returns (ok: bool)
      modifies this`secured
      ensures secured == old(secured) + [ok]
    {
      ok := *;
      secured := secured + [ok];
    }

    method Reaction(ev: Protocol.Event) returns (texts: seq<seq<Byte>>)
      modifies this`felt
      ensures felt == old(felt) + [Felt(ev, texts)]
    {
      texts := *;
      felt := felt + [Felt(ev, texts)];
    }
  }

  class Client {
    const inbuf: array<Byte>
    const outbuf: array<Byte>
    const msgbuf: array<Byte>
    const env: Session.Env
    const tape: Tape
    var used: bool
    var phase: Phase
    var hasCtrl: bool
    var inlen: nat
    var outlen: nat
    var writeLen: nat
    var tlsWait: Wait
    var writeWait: Wait
    var readWait: Wait
    var acceptedAt: int
    var writeStarted: int
    var failed: bool
    var msglen: nat
    var msgOpcode: int
    /** The text messages handed to the controller: its state, as far as the verdict on the next one goes. */
    var heard: seq<seq<Byte>>
    /** What this connection has done with its input. */
    ghost var log: seq<Session.Action>
    /** Everything accepted for output. */
    ghost var items: seq<Item>
    /** The data calls made to the TLS library. */
    ghost var calls: seq<Tls.Call>
    /** The texts that the controller's send callback has been given. */
    ghost var spoken: seq<seq<Byte>>

    /** Whether an answer did not fit the output queue. */
    ghost var overrun: bool
    /** Whether the connection failed for any other reason. */
    ghost var lost: bool

    /** Counts the connections this slot has held. */
    ghost var epoch: nat
    /** How the last connection that was closed here stood then. */
    ghost var last: Glance

    ghost predicate Same(live: bool, number: nat, since: int)
      reads this
    {
      used == live && epoch == number && acceptedAt == since
    }

    // The data calls of the library, with any outcome they may have.

    method SslRead(max: nat) returns (r: ReadResult)
      requires max > 0
      modifies this`calls
      ensures calls == old(calls) + [Tls.Read(r)] && (r.Data? ==> 1 <= |r.bytes| <= max)
    {
      r := *;
      if r.Data? && !(1 <= |r.bytes| <= max) { r := ReadFails; }
      calls := calls + [Tls.Read(r)];
    }

    method SslWrite(len: nat) returns (r: WriteResult)
      requires 0 < len <= outbuf.Length
      modifies this`calls
      ensures calls == old(calls) + [Tls.Write(outbuf[..len], r)] && (r.Wrote? ==> 1 <= r.n <= len)
    {
      r := *;
      if r.Wrote? && !(1 <= r.n <= len) { r := WriteFails; }
      calls := calls + [Tls.Write(outbuf[..len], r)];
    }

    ghost predicate Shape()
      reads this
    {
      && inbuf.Length == Session.INPUT_BUF_SIZE && outbuf.Length == OUT_SIZE && msgbuf.Length == Session.MSG_BUF_SIZE
      && inbuf != outbuf && inbuf != msgbuf && outbuf != msgbuf
      && inlen <= inbuf.Length && outlen <= outbuf.Length && msglen <= msgbuf.Length && writeLen <= outlen
    }

    ghost predicate OutputOk()
      requires Shape()
      reads this, outbuf
    {
      && failed == (overrun || lost)
      && Conserved(items, calls, outbuf[..outlen])
      && (!failed ==> Due(calls, outbuf[..outlen], writeLen, writeWait, readWait))
    }

    /** The connection as the byte-stream machine sees it. */
    ghost function Sess(): Session.State
      requires Shape()
      reads this, inbuf, msgbuf
    {
      SessWith(inbuf[..inlen])
    }

    ghost function SessWith(input: seq<Byte>): Session.State
      requires Shape()
      reads this, msgbuf
    {
      Session.State(match phase case Ws => Session.Ws case Closing => Session.Closing case _ => Session.Http,
                    if phase == Closing then [] else input, msgOpcode, msgbuf[..msglen], log)
    }

    /** After an upgrade one response is queued and then only frames. */
    ghost predicate UpgradeOk()
      reads this
    {
      && heard == Session.Messages(log)
      && (phase == Ws ==> hasCtrl) && (phase in {Handshake, Http} ==> log == [] && items == [])
      && (log == [] ==> !hasCtrl)
      && (log != [] ==> log[0].Request? && (hasCtrl <==> Session.MayUpgrade(env, log[0].req)))
      && (hasCtrl ==> UpgradeItems(items, failed))
      && (!failed ==> Payloads(items, OP_TEXT) == spoken)
    }

    ghost function Record(): Account
      reads this
    {
      Account(log, items, failed)
    }

    method QueueOutput(data: seq<Byte>, now: int, ghost item: Item)
      requires Shape() && OutputOk() && ItemOk(item) && ItemBytes(item) == data
      modifies this`failed, this`overrun, this`writeStarted, this`outlen, this`items, outbuf
      ensures Shape() && OutputOk()
      ensures failed == (old(failed) || |data| > OUT_SIZE - old(outlen))
      ensures overrun == (old(overrun) || (!old(failed) && |data| > OUT_SIZE - old(outlen)))
      ensures failed ==> items == old(items) && outlen == old(outlen) && writeStarted == old(writeStarted)
      ensures !failed ==> items == old(items) + [item] && outlen == old(outlen) + |data|
      ensures !failed ==> writeStarted == if old(outlen) > 0 then old(writeStarted) else now
    {
      hide Conserved;
      hide ItemBytes;
      if failed {
        return;
      }
      if |data| > OUT_SIZE - outlen {
        failed, overrun := true, true;
        return;
      }
      if outlen == 0 {
        writeStarted := now;
      }
      ghost var queue := outbuf[..outlen];
      Append(data);
      outlen := outlen + |data|;
      AcceptsOutput(items, calls, queue, item, data, writeLen);
      items := items + [item];
    }

    /** Copies data behind the queued bytes. */
    method Append(data: seq<Byte>)
      requires outlen + |data| <= outbuf.Length
      modifies outbuf
      ensures outbuf[..outlen + |data|] == old(outbuf[..outlen]) + data
    {
      forall k | 0 <= k < |data| { outbuf[outlen + k] := data[k]; }
    }

    /** Moves the queue down over its first n bytes. */
    method Consume(n: nat)
      requires n <= outlen <= outbuf.Length
      modifies this`outlen, outbuf
      ensures outlen == old(outlen) - n && outbuf[..outlen] == old(outbuf[..outlen])[n..]
    {
      PrefixSlice(outbuf[..], outlen, n, outlen);
      forall k | 0 <= k < outlen - n { outbuf[k] := outbuf[n + k]; }
      outlen := outlen - n;
    }

    /** One call of the library, with the first writeLen bytes of the queue. */
    method Offer() returns (r: WriteResult)
      requires Shape() && writeLen > 0 && Conserved(items, calls, outbuf[..outlen])
      requires DutyAfter(calls) == Free || DutyAfter(calls) == RetryWrite(outbuf[..outlen][..writeLen])
      modifies this`calls
      ensures r.Wrote? ==> 1 <= r.n <= writeLen
      ensures calls == old(calls) + [Tls.Write(outbuf[..writeLen], r)]
      ensures Conserved(items, calls, if r.Wrote? then outbuf[..outlen][r.n..] else outbuf[..outlen])
      ensures r.Wrote? ==> DutyAfter(calls) == Free
      ensures r.WriteWantsRead? || r.WriteWantsWrite? ==> DutyAfter(calls) == RetryWrite(outbuf[..outlen][..writeLen])
      ensures r.WriteWantsRead? ==> WaitAfter(calls) == ForInput
      ensures r.WriteWantsWrite? ==> WaitAfter(calls) == ForOutput
    {
      hide Conserved;
      hide DutyAfter;
      hide WaitAfter;
      ghost var before := calls;
      r := SslWrite(writeLen);
      PrefixSlice(outbuf[..], outlen, 0, writeLen);
      assert outbuf[..outlen][..writeLen] == outbuf[..writeLen];
      AfterWrite(items, before, outbuf[..outlen], writeLen, r);
    }

    /** The marks that the result of a write leaves. */
    predicate Marked(r: WriteResult, now: int)
      reads this
    {
      match r
      case Wrote(_) => writeLen == 0 && writeWait == NoWait && writeStarted == now && !failed
      case WriteWantsRead => writeLen > 0 && writeWait == ForInput && !failed
      case WriteWantsWrite => writeLen > 0 && writeWait == ForOutput && !failed
      case WriteFails => writeLen > 0 && failed
    }

    /** Offers the queue to the TLS library, or repeats the unfinished offer unchanged. */
    method FlushOutput(now: int)
      requires Shape() && OutputOk() && readWait != ForOutput
      modifies this`failed, this`lost, this`writeStarted, this`outlen, this`writeLen, this`writeWait, this`calls, outbuf
      ensures Shape() && OutputOk()
      ensures if old(failed) || old(outlen) == 0 then
                outlen == old(outlen) && writeLen == old(writeLen) && calls == old(calls) && failed == old(failed)
              else
                |calls| == |old(calls)| + 1 && calls[..|old(calls)|] == old(calls)
                && calls[|old(calls)|].Write?
                && calls[|old(calls)|].offered == old(outbuf[..if writeLen > 0 then writeLen else outlen])
                && Marked(calls[|old(calls)|].result, now)
      ensures outlen <= old(outlen) && (failed && !old(failed) ==> writeLen > 0)
    {
      hide Conserved;
      hide WaitAfter;
      hide DutyAfter;
      if outlen == 0 || failed {
        return;
      }
      if writeLen == 0 {
        writeLen := outlen;
      }
      var r := Offer();
      match r
      case Wrote(n) =>
        Consume(n);
        writeLen := 0;
        writeWait := NoWait;
        writeStarted := now;
      case WriteWantsRead =>
        writeWait := ForInput;
      case WriteWantsWrite =>
        writeWait := ForOutput;
      case WriteFails =>
        failed, lost := true, true;
    }

    /** A message from the controller, as a text frame; one too large for the frame buffer ends the connection. */
    method ClientSend(text: seq<Byte>, now: int)
      requires Shape() && OutputOk() && UpgradeOk() && hasCtrl
      modifies this`failed, this`overrun, this`writeStarted, this`outlen, this`items, this`spoken, outbuf
      ensures Shape() && OutputOk() && UpgradeOk()
      ensures failed ==> items == old(items) && outlen == old(outlen)
      ensures failed == (old(failed) || FrameSize(|text|) > 65536 || FrameSize(|text|) > 131072 - old(outlen))
      ensures !failed ==> items == old(items) + [Framed(Outgoing(OP_TEXT, text))]
      ensures spoken == old(spoken) + [text]
    {
      hide FrameSize;
      hide ItemBytes;
      hide ItemOk;
      hide Payloads;
      hide Conserved;
      hide Due;
      hide Session.Messages;
      hide UpgradeItems;
      hide Session.MayUpgrade;
      spoken := spoken + [text];
      PayloadsSnoc(items, Framed(Outgoing(OP_TEXT, text)), OP_TEXT);
      var n, bytes := EncodeItem(OP_TEXT, text);
      if n < 0 {
        UpgradeGrows(items, failed, Outgoing(OP_TEXT, []));
        failed, overrun := true, true;
        return;
      }
      UpgradeGrows(items, failed, Outgoing(OP_TEXT, text));
      QueueOutput(bytes, now, Framed(Outgoing(OP_TEXT, text)));
    }

    /** One frame in a buffer of its own. */
    static method EncodeItem(opcode: nat, payload: seq<Byte>) returns (n: int, bytes: seq<Byte>)
      requires opcode < 16
      ensures n == if FrameSize(|payload|) > 65536 then -1 else FrameSize(|payload|)
      ensures n != -1 ==> var x := Framed(Outgoing(opcode, payload)); ItemOk(x) && ItemBytes(x) == bytes && |bytes| == n
    {
      hide ServerFrame;
      FrameSizeIs(|payload|);
      var frame := new Byte[BUF_SIZE](_ => 0);
      n := WsCodec.EncodeFrame(frame, opcode, payload);
      bytes := if n > 0 then frame[..n] else [];
    }

    method SendPong(payload: seq<Byte>, now: int)
      requires Shape() && OutputOk() && UpgradeOk() && hasCtrl && |payload| <= 125
      modifies this`failed, this`overrun, this`writeStarted, this`outlen, this`items, outbuf
      ensures Shape() && OutputOk() && UpgradeOk()
      ensures failed ==> items == old(items) && outlen == old(outlen)
      ensures failed == (old(failed) || FrameSize(|payload|) > 131072 - old(outlen))
      ensures !failed ==> items == old(items) + [Framed(Outgoing(OP_PONG, payload))]
    {
      hide ItemBytes;
      hide ItemOk;
      hide Payloads;
      hide Conserved;
      hide Due;
      hide Session.Messages;
      hide UpgradeItems;
      hide Session.MayUpgrade;
      var n, bytes := EncodeItem(OP_PONG, payload);
      if n > 0 {
        UpgradeGrows(items, failed, Outgoing(OP_PONG, payload));
        PayloadsSnoc(items, Framed(Outgoing(OP_PONG, payload)), OP_TEXT);
        QueueOutput(bytes, now, Framed(Outgoing(OP_PONG, payload)));
      }
    }

    // ----- input -----

    /** Takes n bytes off the front of the input buffer. */
    method Compact(n: nat)
      requires n <= inlen <= inbuf.Length
      modifies this`inlen, inbuf
      ensures inlen == old(inlen) - n && inbuf[..inlen] == old(inbuf[n..inlen])
    {
      forall k | 0 <= k < inlen - n { inbuf[k] := inbuf[n + k]; }
      inlen := inlen - n;
    }

    /** Adds a stretch of the input buffer to the message being assembled. */
    method CopyToMessage(at: nat, len: nat)
      requires at + len <= inbuf.Length && msglen + len <= msgbuf.Length && inbuf != msgbuf
      modifies this`msglen, msgbuf
      ensures msglen == old(msglen) + len && msgbuf[..msglen] == old(msgbuf[..msglen]) + inbuf[at..at + len]
    {
      forall k | 0 <= k < len { msgbuf[msglen + k] := inbuf[at + k]; }
      msglen := msglen + len;
    }

    method Respond(parts: seq<seq<Byte>>, now: int)
      requires Shape() && OutputOk() && UpgradeOk() && !hasCtrl && phase == Closing
      modifies this`failed, this`overrun, this`writeStarted, this`outlen, this`items, outbuf
      ensures Shape() && OutputOk() && UpgradeOk() && (old(failed) ==> failed)
      ensures !failed ==> items == old(items) + RawItems(parts)
    {
      hide Payloads;
      hide Conserved;
      hide Due;
      hide Session.Messages;
      for k := 0 to |parts|
        invariant Shape() && OutputOk() && UpgradeOk() && (old(failed) ==> failed)
        invariant !failed ==> items == old(items) + RawItems(parts)[..k]
      {
        PayloadsSnoc(items, Raw(parts[k]), OP_TEXT);
        QueueOutput(parts[k], now, Raw(parts[k]));
        assert RawItems(parts)[..k + 1] == RawItems(parts)[..k] + [Raw(parts[k])];
      }
    }

    method SendAll(texts: seq<seq<Byte>>, now: int)
      requires Shape() && OutputOk() && UpgradeOk() && hasCtrl
      modifies this`failed, this`overrun, this`writeStarted, this`outlen, this`items, this`spoken, outbuf
      ensures Shape() && OutputOk() && UpgradeOk() && (old(failed) ==> failed)
      ensures !failed ==> items == old(items) + TextItems(texts)
      ensures spoken == old(spoken) + texts
    {
      hide Payloads;
      hide Conserved;
      hide Due;
      hide Session.Messages;
      for k := 0 to |texts|
        invariant spoken == old(spoken) + texts[..k]
        invariant Shape() && OutputOk() && UpgradeOk() && (old(failed) ==> failed)
        invariant !failed ==> items == old(items) + TextItems(texts)[..k]
      {
        ClientSend(texts[k], now);
        assert TextItems(texts)[..k + 1] == TextItems(texts)[..k] + [Framed(Outgoing(OP_TEXT, texts[k]))];
      }
    }

    /** Answers an accepted upgrade and creates the controller, which greets the client. */
    method Upgrade(host: Host, req: Http.Request, ghost body: seq<Byte>, now: int)
      requires Shape() && OutputOk() && UpgradeOk() && phase == Http && Session.MayUpgrade(env, req)
      modifies this`failed, this`overrun, this`writeStarted, this`outlen, this`items
      modifies this`spoken, this`phase, this`hasCtrl
      modifies this`log, outbuf
      ensures Shape() && OutputOk() && UpgradeOk() && phase == Ws && (old(failed) ==> failed)
      ensures !failed ==> items == old(items) + [Raw(host.switching(req)), Framed(Outgoing(OP_TEXT, host.welcome))]
      ensures spoken == old(spoken) + [host.welcome] && hasCtrl && log == [Session.Request(req, body)]
    {
      hide FrameSize;
      hide Session.PongsDue;
      hide Session.MayUpgrade;
      hide Payloads;
      hide Conserved;
      hide Due;
      hide Session.Messages;
      var hdr := host.switching(req);
      PayloadsSnoc(items, Raw(hdr), OP_TEXT);
      QueueOutput(hdr, now, Raw(hdr));
      UpgradeStarts(hdr);
      assert UpgradeItems([], true);
      RequestOnly(req, body);
      hasCtrl := true;
      phase := Ws;
      log := [Session.Request(req, body)];
      ClientSend(host.welcome, now);
    }

    /** One HTTP request: an upgrade turns the connection over to WebSocket, anything else ends it. */
    method HandleRequest(host: Host, req: Http.Request, body: seq<Byte>, now: int, ghost rest: seq<Byte>)
      requires Shape() && OutputOk() && UpgradeOk() && phase == Http
      modifies this`failed, this`overrun, this`writeStarted, this`outlen, this`items
      modifies this`spoken, this`phase, this`hasCtrl
      modifies this`log, outbuf
      ensures Shape() && OutputOk() && UpgradeOk()
      ensures phase in {Ws, Closing} && SessWith(rest) == Session.OnRequest(env, old(SessWith(rest)), req, body)
      ensures log == old(log) + [Session.Request(req, body)]
      ensures var upgrade := && env.originAllowed(req.origin) && req.upgradeHeader && req.connectionUpgrade
                             && 1 <= |req.wsKey| <= 219;
              && hasCtrl == upgrade && phase == (if upgrade then Ws else Closing)
              && (old(failed) ==> failed)
              && (!failed ==> items == if upgrade then [Raw(host.switching(req)),
                                                        Framed(Outgoing(OP_TEXT, host.welcome))]
                                       else RawItems(host.respond(req, body)))
      ensures !failed ==> items == old(items) + Answer(host, env, log)
    {
      hide Payloads;
      hide Conserved;
      hide Due;
      hide UpgradeItems;
      hide Session.Messages;
      RequestOnly(req, body);
      assert log + [Session.Request(req, body)] == [Session.Request(req, body)];
      if req.IsWsUpgrade() && env.originAllowed(req.origin) && 0 < |req.wsKey| <= Session.MAX_WS_KEY {
        Upgrade(host, req, body, now);
      } else {
        Refuse(host, req, body, now);
      }
    }

    /** Answers any other request, and is done. */
    method Refuse(host: Host, req: Http.Request, body: seq<Byte>, now: int)
      requires Shape() && OutputOk() && UpgradeOk() && phase == Http && !Session.MayUpgrade(env, req)
      modifies this`failed, this`overrun, this`writeStarted, this`outlen, this`items, this`phase, this`log, outbuf
      ensures Shape() && OutputOk() && UpgradeOk() && phase == Closing && (old(failed) ==> failed)
      ensures !failed ==> items == old(items) + RawItems(host.respond(req, body))
      ensures !hasCtrl && log == [Session.Request(req, body)]
    {
      hide Session.MayUpgrade;
      hide Payloads;
      hide Conserved;
      hide Due;
      hide Session.Messages;
      RequestOnly(req, body);
      phase := Closing;
      log := [Session.Request(req, body)];
      Respond(host.respond(req, body), now);
    }

    /** Hands the assembled message to the controller. */
    method HandMessage(host: Host, now: int)
      requires Shape() && OutputOk() && UpgradeOk() && phase == Ws
      modifies this`failed, this`overrun, this`writeStarted, this`outlen, this`items, this`spoken, this`phase, this`log
      modifies this`heard, outbuf
      ensures Shape() && OutputOk() && UpgradeOk()
      ensures log == old(log) + [Session.Message(msgbuf[..msglen])]
      ensures (old(failed) ==> failed) && (!failed ==> items == old(items) + Answer(host, env, log))
      ensures phase == if env.accepts(Session.Messages(log)) then Ws else Closing
      ensures spoken == old(spoken) + host.replies(Session.Messages(log))
    {
      hide Payloads;
      hide Conserved;
      hide Due;
      hide Session.Messages;
      hide UpgradeItems;
      hide Session.MayUpgrade;
      Session.MessagesSnoc(log, Session.Message(msgbuf[..msglen]));
      log := log + [Session.Message(msgbuf[..msglen])];
      heard := heard + [msgbuf[..msglen]];
      SendAll(host.replies(heard), now);
      if !env.accepts(heard) {
        phase := Closing;
      }
    }

    /** A text, binary or continuation frame whose payload lies in the input buffer; true when it
        would take the message over the limit. */
    method HandleData(host: Host, fin: bool, opcode: nat, at: nat, len: nat, now: int, ghost rest: seq<Byte>)
      returns (limit: bool)
      requires Shape() && OutputOk() && UpgradeOk() && phase == Ws && at + len <= inbuf.Length
      requires opcode in {OP_TEXT, OP_BIN, OP_CONT}
      modifies this`failed, this`overrun, this`writeStarted, this`outlen, this`items
      modifies this`spoken, this`phase, this`log, this`heard
      modifies this`msglen, this`msgOpcode, outbuf, msgbuf
      ensures Shape() && OutputOk() && UpgradeOk()
      ensures phase in {Ws, Closing} && (limit ==> phase == Closing)
      ensures SessWith(rest) == Session.OnData(env, old(SessWith(rest)), Frame(fin, opcode, inbuf[at..at + len]))
      ensures AnsweredOne(host, env, old(Record()), Record())
    {
      hide Payloads;
      hide Conserved;
      hide Due;
      hide Session.Messages;
      hide UpgradeItems;
      hide Session.MayUpgrade;
      limit := false;
      if opcode != OP_CONT {
        msgOpcode := opcode;
        msglen := 0;
      }
      if msgOpcode == OP_TEXT {
        if msglen + len > Session.MSG_BUF_SIZE {
          phase := Closing;
          return true;
        }
        CopyToMessage(at, len);
      }
      if fin {
        FinishMessage(host, now);
      }
    }

    /** The end of a message: a text message goes to the controller, and the assembler is reset. */
    method FinishMessage(host: Host, now: int)
      requires Shape() && OutputOk() && UpgradeOk() && phase == Ws
      modifies this`failed, this`overrun, this`writeStarted, this`outlen, this`items
      modifies this`spoken, this`phase, this`log, this`heard
      modifies this`msglen, this`msgOpcode, outbuf
      ensures Shape() && OutputOk() && UpgradeOk() && msgOpcode == -1 && msglen == 0
      ensures log == if old(msgOpcode) == OP_TEXT then old(log) + [Session.Message(old(msgbuf[..msglen]))] else old(log)
      ensures phase == if old(msgOpcode) == OP_TEXT && !env.accepts(Session.Messages(log)) then Closing else Ws
      ensures AnsweredOne(host, env, old(Record()), Record())
    {
      hide Payloads;
      hide Conserved;
      hide Due;
      hide Session.Messages;
      hide UpgradeItems;
      hide Session.MayUpgrade;
      hide Answer;
      if msgOpcode == OP_TEXT {
        HandMessage(host, now);
      }
      msgOpcode := -1;
      msglen := 0;
    }

    method HandleFrame(host: Host, fin: bool, opcode: nat, at: nat, len: nat, now: int, ghost rest: seq<Byte>)
      returns (limit: bool)
      requires Shape() && OutputOk() && UpgradeOk() && phase == Ws && at + len <= inbuf.Length
      requires IsControl(opcode) ==> len <= 125
      modifies this`failed, this`overrun, this`writeStarted, this`outlen, this`items
      modifies this`spoken, this`phase, this`log, this`heard
      modifies this`msglen, this`msgOpcode, outbuf, msgbuf
      ensures Shape() && OutputOk() && UpgradeOk()
      ensures phase in {Ws, Closing} && (limit ==> phase == Closing)
      ensures SessWith(rest) == Session.OnFrame(env, old(SessWith(rest)), Frame(fin, opcode, inbuf[at..at + len]))
      ensures AnsweredOne(host, env, old(Record()), Record())
    {
      hide Payloads;
      hide Conserved;
      hide Due;
      hide Session.Messages;
      hide UpgradeItems;
      hide Session.MayUpgrade;
      hide Session.OnData;
      limit := false;
      if opcode in {OP_TEXT, OP_BIN, OP_CONT} {
        limit := HandleData(host, fin, opcode, at, len, now, rest);
      } else if opcode == OP_PING {
        Session.MessagesSnoc(log, Session.Pong(inbuf[at..at + len]));
        log := log + [Session.Pong(inbuf[at..at + len])];
        SendPong(inbuf[at..at + len], now);
      } else if opcode == OP_CLOSE {
        phase := Closing;
      }
    }

    /** Takes every complete request or frame off the input buffer, compacting as it goes. */
    method ProcessClientBuffer(host: Host, now: int)
      requires Shape() && OutputOk() && UpgradeOk() && phase != Handshake
      modifies this`failed, this`overrun, this`writeStarted, this`outlen, this`items
      modifies this`spoken, this`phase, this`hasCtrl
      modifies this`log, this`heard
      modifies this`msglen, this`msgOpcode, this`inlen, outbuf, msgbuf, inbuf
      ensures Shape() && OutputOk() && UpgradeOk() && phase != Handshake && inlen <= old(inlen)
      ensures phase == Http ==> old(phase) == Http
      ensures Sess() == Session.Process(env, old(Sess()))
      ensures Answered(host, env, old(Record()), Record())
    {
      hide Payloads;
      hide Conserved;
      hide Due;
      hide Session.Messages;
      hide UpgradeItems;
      hide Session.MayUpgrade;
      hide Session.Step;
      hide Answered;
      hide AnsweredOne;
      ghost var s0, r0 := Sess(), Record();
      AnsweredNone(host, env, r0);
      while true
        invariant Shape() && OutputOk() && UpgradeOk() && phase != Handshake && inlen <= old(inlen)
        invariant phase == Http ==> old(phase) == Http
        invariant Session.Process(env, Sess()) == Session.Process(env, s0)
        invariant Answered(host, env, old(Record()), Record())
        decreases inlen
      {
        var more: bool;
        ghost var r := Record();
        if phase == Http {
          more := ProcessRequest(host, now);
        } else if phase == Ws {
          more := ProcessFrame(host, now);
        } else {
          return;
        }
        AnsweredMore(host, env, r0, r, Record());
        if !more {
          return;
        }
      }
    }

    /** Nothing more is taken from the input. */
    method StartClosing()
      requires Shape() && OutputOk() && UpgradeOk() && phase in {Http, Ws}
      modifies this`phase
      ensures Shape() && OutputOk() && UpgradeOk() && phase == Closing && Sess() == Session.Close(old(Sess()))
    {
      hide Payloads;
      hide Conserved;
      hide Due;
      hide Session.Messages;
      hide UpgradeItems;
      hide Session.MayUpgrade;
      phase := Closing;
    }

    /** The HTTP arm of the parse loop; false when it returns. */
    method ProcessRequest(host: Host, now: int) returns (more: bool)
      requires Shape() && OutputOk() && UpgradeOk() && phase == Http
      modifies this`failed, this`overrun, this`writeStarted, this`outlen, this`items
      modifies this`spoken, this`phase, this`hasCtrl
      modifies this`log, this`inlen
      modifies outbuf, inbuf
      ensures Shape() && OutputOk() && UpgradeOk() && phase != Handshake && inlen <= old(inlen)
      ensures more ==> phase == Ws && inlen < old(inlen)
      ensures match Session.Step(env, old(Sess()))
              case None => !more && Sess() == old(Sess())
              case Some(t) => Sess() == t && (more || phase == Closing)
      ensures AnsweredOne(host, env, old(Record()), Record())
    {
      hide Session.Step;
      HttpTurn(env, Sess());
      hide Payloads;
      hide Answer;
      hide Conserved;
      hide Due;
      hide Session.Messages;
      hide UpgradeItems;
      hide Session.MayUpgrade;
      hide Session.OnRequest;
      hide Http.Parse;
      var n, req := Http.ParseRequest(inbuf, inlen);
      if n == 0 {
        return false;
      }
      if n < 0 || req.contentLength > Session.MAX_BODY {
        StartClosing();
        return false;
      }
      if inlen < n + req.contentLength {
        return false;
      }
      more := TakeRequest(host, req, n, n + req.contentLength, now);
    }

    /** Handles a request whose body is input[n..end], and takes both off the buffer; false when that closes
        the connection. */
    method TakeRequest(host: Host, req: Http.Request, n: nat, end: nat, now: int) returns (more: bool)
      requires Shape() && OutputOk() && UpgradeOk() && phase == Http && n <= end <= inlen
      modifies this`failed, this`overrun, this`writeStarted, this`outlen, this`items
      modifies this`spoken, this`phase, this`hasCtrl
      modifies this`log, this`inlen
      modifies outbuf, inbuf
      ensures Shape() && OutputOk() && UpgradeOk() && phase in {Ws, Closing} && inlen == old(inlen) - end
      ensures more <==> phase == Ws
      ensures var input := old(inbuf[..inlen]);
              Sess() == Session.OnRequest(env, old(SessWith(inbuf[..inlen][end..])), req, input[n..end])
      ensures AnsweredOne(host, env, old(Record()), Record())
    {
      hide Payloads;
      hide Answer;
      hide Conserved;
      hide Due;
      hide Session.Messages;
      hide UpgradeItems;
      hide Session.MayUpgrade;
      hide Session.OnRequest;
      PrefixSlice(inbuf[..], inlen, n, end);
      PrefixSlice(inbuf[..], inlen, end, inlen);
      HandleRequest(host, req, inbuf[n..end], now, inbuf[end..inlen]);
      Compact(end);
      more := phase != Closing;
    }

    /** The WebSocket arm of the parse loop; false when it returns. */
    method ProcessFrame(host: Host, now: int) returns (more: bool)
      requires Shape() && OutputOk() && UpgradeOk() && phase == Ws
      modifies this`failed, this`overrun, this`writeStarted, this`outlen, this`items, this`spoken, this`phase, this`log
      modifies this`heard, this`msglen, this`msgOpcode, this`inlen
      modifies outbuf, msgbuf, inbuf
      ensures Shape() && OutputOk() && UpgradeOk() && phase in {Ws, Closing} && inlen <= old(inlen)
      ensures more ==> phase == Ws && inlen < old(inlen)
      ensures match Session.Step(env, old(Sess()))
              case None => !more && Sess() == old(Sess())
              case Some(t) => Sess() == t && (more || phase == Closing)
      ensures AnsweredOne(host, env, old(Record()), Record())
    {
      hide Payloads;
      hide Answer;
      hide Conserved;
      hide Due;
      hide Session.Messages;
      hide UpgradeItems;
      hide Session.MayUpgrade;
      hide Session.OnFrame;
      hide Decode;
      hide WsFrame.Mask;
      ghost var input := inbuf[..inlen];
      var n, fin, opcode, at, len := WsCodec.DecodeFrame(inbuf, inlen);
      if n == 0 {
        assert inbuf[..inlen] == input;
        return false;
      }
      if n < 0 {
        StartClosing();
        return false;
      }
      CompleteBounds(input);
      PrefixSlice(inbuf[..], inlen, n, inlen);
      assert inbuf[..inlen][n..] == inbuf[n..][..inlen - n] && input[n..] == old(inbuf[n..])[..inlen - n];
      more := TakeFrame(host, fin, opcode, at, len, n, now);
    }

    /** Handles a frame of n bytes whose payload has been unmasked, and takes it off the buffer; false when
        that closes the connection. */
    method TakeFrame(host: Host, fin: bool, opcode: nat, at: nat, len: nat, n: nat, now: int) returns (more: bool)
      requires Shape() && OutputOk() && UpgradeOk() && phase == Ws && at + len <= n <= inlen
      requires IsControl(opcode) ==> len <= 125
      modifies this`failed, this`overrun, this`writeStarted, this`outlen, this`items
      modifies this`spoken, this`phase, this`log, this`heard
      modifies this`msglen, this`msgOpcode, this`inlen, outbuf, msgbuf, inbuf
      ensures Shape() && OutputOk() && UpgradeOk() && phase in {Ws, Closing} && inlen <= old(inlen)
      ensures (more <==> phase == Ws) && (more ==> inlen == old(inlen) - n)
      ensures var f := Frame(fin, opcode, old(inbuf[at..at + len]));
              Sess() == Session.OnFrame(env, old(SessWith(inbuf[..inlen][n..])), f)
      ensures AnsweredOne(host, env, old(Record()), Record())
    {
      hide Payloads;
      hide Answer;
      hide Conserved;
      hide Due;
      hide Session.Messages;
      hide UpgradeItems;
      hide Session.MayUpgrade;
      hide Session.OnFrame;
      PrefixSlice(inbuf[..], inlen, n, inlen);
      var limit := HandleFrame(host, fin, opcode, at, len, now, inbuf[n..inlen]);
      if limit {
        return false;
      }
      Compact(n);
      return phase != Closing;
    }

    // ----- one turn of the event loop -----

    /** The state and the unread bytes are those of the byte-stream machine after these reads. */
    ghost predicate InputOk(got: seq<seq<Byte>>)
      requires Shape()
      reads this, inbuf, msgbuf
    {
      Session.ReadsFit(env, Session.START, got) && Sess() == Session.Deliver(env, Session.START, got)
    }

    ghost predicate Untouched()
      reads this
    {
      && calls == [] && log == [] && items == [] && spoken == [] && heard == []
      && inlen == 0 && outlen == 0 && writeLen == 0 && msglen == 0
      && readWait == NoWait && writeWait == NoWait && !hasCtrl
    }

    /** The connection is in order and has taken in those reads. */
    ghost predicate Sound(got: seq<seq<Byte>>)
      reads this, inbuf, outbuf, msgbuf
    {
      && Shape() && OutputOk() && UpgradeOk() && PingsAnswered(Record())
      && (phase == Handshake ==> Untouched() && msgOpcode == -1 && tlsWait != NoWait)
      && (phase != Handshake ==> InputOk(got))
      && (phase == Closing && !failed ==> readWait == NoWait)
    }

    /** What it has taken in is exactly what the library's reads returned. */
    ghost predicate Valid()
      reads this, inbuf, outbuf, msgbuf
    {
      Sound(Returned(calls))
    }

    /** What the connection asks poll for. */
    function Interest(): Mask
      reads this
    {
      if phase == Handshake then Mask(tlsWait == ForInput, tlsWait == ForOutput)
      else if writeLen > 0 then Mask(writeWait == ForInput, writeWait == ForOutput)
      else Mask(phase != Closing && readWait != ForOutput, (phase != Closing && readWait == ForOutput) || outlen > 0)
    }

    /** How every slot stands whenever poll is called: a free slot is all zero; a live connection is
        valid, has not failed, waits for something, and if it is closing still has output. */
    ghost predicate Ready()
      reads this, inbuf, outbuf, msgbuf
    {
      if !used then Shape() && Untouched() && !failed && !overrun && !lost && writeStarted == 0
      else Valid() && !failed && (Interest().input || Interest().output) && (phase == Closing ==> outlen > 0)
    }

    constructor (env: Session.Env)
      ensures Ready() && !used && this.env == env && fresh(inbuf) && fresh(outbuf) && fresh(msgbuf)
      ensures fresh(tape)
    {
      this.env := env;
      inbuf := new Byte[Session.INPUT_BUF_SIZE](_ => 0);
      outbuf := new Byte[OUT_SIZE](_ => 0);
      msgbuf := new Byte[Session.MSG_BUF_SIZE](_ => 0);
      used, phase, hasCtrl, failed := false, Handshake, false, false;
      inlen, outlen, writeLen, msglen, msgOpcode := 0, 0, 0, 0, 0;
      tlsWait, writeWait, readWait := NoWait, NoWait, NoWait;
      acceptedAt, writeStarted := 0, 0;
      heard := [];
      log, items, calls, spoken, epoch := [], [], [], [], 0;
      overrun, lost := false, false;
      last := NewLook(0);
      tape := new Tape();
    }

    /** The slot as `memset` leaves it. */
    ghost predicate Cleared()
      reads this, inbuf, outbuf, msgbuf
    {
      && AllZero(inbuf) && AllZero(outbuf) && AllZero(msgbuf)
      && !used && !failed && !hasCtrl && phase == Handshake && acceptedAt == writeStarted == 0
      && tlsWait == readWait == writeWait == NoWait
      && inlen == outlen == writeLen == msglen == 0 && msgOpcode == 0 && heard == []
    }

    /** Zeroes the buffers. */
    method Wipe()
      modifies inbuf, outbuf, msgbuf
      ensures AllZero(inbuf) && AllZero(outbuf) && AllZero(msgbuf)
    {
      forall k | 0 <= k < inbuf.Length { inbuf[k] := 0; }
      forall k | 0 <= k < outbuf.Length { outbuf[k] := 0; }
      forall k | 0 <= k < msgbuf.Length { msgbuf[k] := 0; }
    }

    /** Zeroes the slot's marks. */
    method ClearMarks()
      modifies this`used, this`phase, this`hasCtrl, this`failed, this`tlsWait, this`writeWait, this`readWait
      modifies this`acceptedAt, this`writeStarted
      ensures !used && !failed && !hasCtrl && phase == Handshake && acceptedAt == writeStarted == 0
      ensures tlsWait == readWait == writeWait == NoWait
    {
      used, phase, hasCtrl, failed := false, Handshake, false, false;
      tlsWait, writeWait, readWait := NoWait, NoWait, NoWait;
      acceptedAt, writeStarted := 0, 0;
    }

    /** Empties the slot's buffers and, with them, the record of the connection. */
    method ClearBuffers()
      modifies this`inlen, this`outlen, this`writeLen, this`msglen, this`msgOpcode
      modifies this`heard, this`log, this`items, this`calls, this`spoken, this`overrun, this`lost
      ensures inlen == outlen == writeLen == msglen == 0 && msgOpcode == 0
      ensures heard == [] && log == [] && items == [] && calls == [] && spoken == []
      ensures !overrun && !lost
    {
      inlen, outlen, writeLen, msglen, msgOpcode := 0, 0, 0, 0, 0;
      heard := [];
      log, items, calls, spoken := [], [], [], [];
      overrun, lost := false, false;
    }

    method CloseClient()
      requires Shape()
      modifies this, inbuf, outbuf, msgbuf
      ensures Ready() && !used && epoch == old(epoch) && last == old(Look()) && Cleared()
    {
      hide AllZero;
      hide Valid;
      hide Interest;
      hide Look;
      last := Look();
      Wipe();
      ClearMarks();
      ClearBuffers();
    }

    /** Puts an accepted socket into a free slot; without a TLS object for it the slot is given up again. */
    method Open(now: int)
      requires Ready() && !used
      modifies this, inbuf, outbuf, msgbuf, tape`secured
      ensures Ready() && epoch == old(epoch) + 1 && tape.secured == old(tape.secured) + [used]
      ensures used ==> Look() == NewLook(now) && !hasCtrl
    {
      hide Valid;
      Claim(now);
      var ok := tape.SslNew();
      if !ok {
        ShapeOfReady();
        CloseClient();
      }
    }

    method Claim(now: int)
      requires Ready() && !used
      modifies this`used, this`phase, this`tlsWait, this`acceptedAt, this`msgOpcode, this`msglen, this`epoch
      ensures Ready() && used && epoch == old(epoch) + 1 && Look() == NewLook(now) && !hasCtrl
    {
      hide Sound;
      MarkOpened(now);
      ClaimedIsReady();
    }

    method MarkOpened(now: int)
      modifies this`used, this`phase, this`tlsWait, this`acceptedAt, this`msgOpcode, this`msglen, this`epoch
      ensures used && phase == Handshake && tlsWait == ForInput && acceptedAt == now && msgOpcode == -1 && msglen == 0
      ensures epoch == old(epoch) + 1
    {
      used := true;
      epoch := epoch + 1;
      phase := Handshake;
      tlsWait := ForInput;
      acceptedAt := now;
      msgOpcode := -1;
      msglen := 0;
    }

    lemma ClaimedIsReady()
      requires Shape() && Untouched() && used && phase == Handshake && tlsWait == ForInput && msgOpcode == -1
      requires !failed && !overrun && !lost
      ensures Ready()
    {
      hide Conserved;
      hide Payloads;
      hide Session.PongsDue;
      hide Session.Messages;
      FreshBooks();
    }

    lemma FreshBooks()
      requires Shape() && Untouched()
      ensures Conserved(items, calls, outbuf[..outlen]) && Session.Messages(log) == [] && PingsAnswered(Record())
      ensures Payloads(items, OP_TEXT) == []
    {
    }

    /** Goes on with the TLS handshake; only its completion opens the connection to requests. */
    method ContinueHandshake() returns (r: AcceptResult)
      requires Valid() && phase == Handshake && !failed
      modifies this`phase, this`tlsWait, this`failed, this`lost, tape`shakes
      ensures Valid() && failed == lost == r.AcceptFails? && tape.shakes == old(tape.shakes) + [r]
      ensures phase == if r.Accepted? then Http else Handshake
      ensures r.Accepted? ==> tlsWait == old(tlsWait)
      ensures r.AcceptWantsRead? ==> tlsWait == ForInput
      ensures r.AcceptWantsWrite? ==> tlsWait == ForOutput
    {
      hide Payloads;
      hide Session.PongsDue;
      hide Conserved;
      r := tape.SslAccept();
      match r
      case Accepted =>
        phase := Http;
        assert inbuf[..inlen] == [] && msgbuf[..msglen] == [];
        assert Session.Messages([]) == [];
      case AcceptWantsRead => tlsWait := ForInput;
      case AcceptWantsWrite => tlsWait := ForOutput;
      case AcceptFails => failed, lost := true, true;
    }

    /** Copies freshly read bytes behind the unread ones. */
    method Fill(bytes: seq<Byte>)
      requires inlen + |bytes| <= inbuf.Length
      modifies this`inlen, inbuf
      ensures inlen == old(inlen) + |bytes| && inbuf[..inlen] == old(inbuf[..inlen]) + bytes
    {
      forall k | 0 <= k < |bytes| { inbuf[inlen + k] := bytes[k]; }
      inlen := inlen + |bytes|;
    }

    /** Takes in what one successful read returned. */
    method TakeIn(host: Host, ghost got: seq<seq<Byte>>, bytes: seq<Byte>, now: int)
      requires Sound(got) && !failed && phase in {Http, Ws} && bytes != [] && inlen + |bytes| <= inbuf.Length
      requires readWait == NoWait
      modifies this`failed, this`overrun, this`writeStarted, this`outlen, this`items
      modifies this`spoken, this`phase, this`hasCtrl
      modifies this`log, this`heard, this`msglen, this`msgOpcode, this`inlen, outbuf, msgbuf, inbuf
      ensures Sound(got + [bytes]) && phase != Handshake && (phase == Http ==> old(phase) == Http)
      ensures Answered(host, env, old(Record()), Record())
    {
      hide Payloads;
      hide PingsAnswered;
      hide Conserved;
      hide Due;
      hide UpgradeItems;
      hide Session.MayUpgrade;
      hide Answered;
      hide Session.Messages;
      hide Session.Deliver;
      hide Session.ReadsFit;
      hide Session.Process;
      ghost var s := Sess();
      Session.DeliverOneMore(env, Session.START, got, bytes);
      Fill(bytes);
      assert Sess() == s.(input := s.input + bytes);
      ghost var r := Record();
      ProcessClientBuffer(host, now);
      AnsweredPongs(host, env, r, Record());
    }

    twostate lemma InputUnmoved(got: seq<seq<Byte>>)
      requires old(Shape()) && Shape() && old(InputOk(got))
      requires inbuf[..] == old(inbuf[..]) && msgbuf[..] == old(msgbuf[..])
      requires unchanged(`phase, `inlen, `msgOpcode, `msglen, `log)
      ensures InputOk(got)
    {
      assert inbuf[..inlen] == inbuf[..][..inlen] && msgbuf[..msglen] == msgbuf[..][..msglen];
      assert old(inbuf[..inlen]) == old(inbuf[..])[..inlen] && old(msgbuf[..msglen]) == old(msgbuf[..])[..msglen];
    }

    /** The wait mark that the result of a read leaves. */
    predicate ReadMarked(r: ReadResult)
      reads this
    {
      match r
      case Data(_) => readWait == NoWait && !failed
      case ReadWantsRead => readWait == ForInput && !failed
      case ReadWantsWrite => readWait == ForOutput && !failed
      case ReadFails => failed
    }

    /** One call of the library, for as many bytes as there is room. */
    method Issue() returns (r: ReadResult)
      requires Shape() && inlen < inbuf.Length && Conserved(items, calls, outbuf[..outlen])
      requires DutyAfter(calls) == Free || DutyAfter(calls) == RetryRead
      modifies this`calls
      ensures calls == old(calls) + [Tls.Read(r)] && (r.Data? ==> 1 <= |r.bytes| <= inbuf.Length - inlen)
      ensures Conserved(items, calls, outbuf[..outlen])
      ensures DutyAfter(calls) == if r.ReadWantsWrite? then RetryRead else Free
    {
      hide Conserved;
      hide DutyAfter;
      ghost var before := calls;
      r := SslRead(inbuf.Length - inlen);
      AfterRead(items, before, outbuf[..outlen], r);
    }

    /** Issues one read and notes what it was told to wait for; what it returned is still to be taken in. */
    method Read(ghost got: seq<seq<Byte>>) returns (r: ReadResult)
      requires Sound(got) && !failed && phase in {Http, Ws} && writeLen == 0 && inlen < inbuf.Length
      modifies this`calls, this`readWait, this`failed, this`lost
      ensures Sound(got) && calls == old(calls) + [Tls.Read(r)] && ReadMarked(r)
      ensures lost == r.ReadFails? && (r.Data? ==> 1 <= |r.bytes| <= inbuf.Length - inlen)
    {
      hide InputOk;
      hide Payloads;
      hide Session.PongsDue;
      hide Conserved;
      hide DutyAfter;
      hide WaitAfter;
      hide UpgradeItems;
      hide Session.MayUpgrade;
      hide Session.Messages;
      if hasCtrl {
        UpgradeGrows(items, failed, Outgoing(OP_TEXT, []));
      }
      r := Issue();
      match r {
      case ReadWantsRead => readWait := ForInput;
      case ReadWantsWrite => readWait := ForOutput;
      case ReadFails => failed, lost := true, true;
      case Data(_) => readWait := NoWait;
      }
      InputUnmoved(got);
    }

    method Fail()
      requires Valid()
      modifies this`failed, this`lost
      ensures Valid() && failed && lost
    {
      hide Payloads;
      hide Session.PongsDue;
      hide Conserved;
      hide Session.Messages;
      hide Session.Deliver;
      hide Session.ReadsFit;
      failed, lost := true, true;
    }

    /** One read, unless the buffer is full; true when another may follow at once. */
    method ReadOnce(host: Host, now: int) returns (again: bool)
      requires Valid() && !failed && phase in {Http, Ws} && writeLen == 0
      modifies this, inbuf, outbuf, msgbuf, tape`told
      ensures Valid() && Same(old(used), old(epoch), old(acceptedAt))
      ensures phase != Handshake && writeLen == 0
      ensures phase == Http ==> old(phase) == Http
      ensures if old(inlen) == inbuf.Length then
                !again && failed && lost && calls == old(calls) && tape.told == old(tape.told) && inlen == inbuf.Length
              else |calls| == |old(calls)| + 1 && DidRead(old(calls), old(tape.told), again)
      ensures Answered(host, env, old(Record()), Record())
    {
      hide Sound;
      hide Answered;
      hide Returned;
      hide DidRead;
      AnsweredNone(host, env, Record());
      ShapeOfValid();
      if inlen == inbuf.Length {
        Fail();
        AnsweredFailure(host, env, old(Record()), Record());
        return false;
      }
      again := ReadSome(host, now);
    }

    /** One read has been made; if it returned data, and the connection goes on, the library was asked for more. */
    ghost predicate DidRead(before: seq<Tls.Call>, asked: seq<bool>, again: bool)
      requires |calls| == |before| + 1
      reads this, tape
    {
      var call := calls[|before|];
      && calls == before + [call] && call.Read? && lost == Broke(call)
      && (again ==> !failed && phase in {Http, Ws} && GotData(call))
      && tape.told == asked + (if GotData(call) && !failed && phase in {Http, Ws} then [again] else [])
    }

    method ReadSome(host: Host, now: int) returns (again: bool)
      requires Valid() && !failed && phase in {Http, Ws} && writeLen == 0 && inlen < inbuf.Length
      modifies this, inbuf, outbuf, msgbuf, tape`told
      ensures Valid() && Same(old(used), old(epoch), old(acceptedAt))
      ensures phase != Handshake && writeLen == 0
      ensures phase == Http ==> old(phase) == Http
      ensures |calls| == |old(calls)| + 1 && DidRead(old(calls), old(tape.told), again)
      ensures Answered(host, env, old(Record()), Record())
    {
      hide Sound;
      hide Answered;
      hide Returned;
      ghost var got := Returned(calls);
      var r := Read(got);
      ReturnedSnoc(old(calls), Tls.Read(r));
      if !r.Data? {
        AnsweredNone(host, env, old(Record()));
        AnsweredFailure(host, env, old(Record()), Record());
        return false;
      }
      TakeIn(host, got, r.bytes, now);
      if phase == Closing || failed {
        return false;
      }
      again := tape.SslPending();
    }

    /** The connection, some reads and questions further on. */
    ghost predicate Further(host: Host, r0: Account, before: seq<Tls.Call>, asked: seq<bool>, gets: seq<Tls.Call>,
                            answers: seq<bool>)
      reads this, tape
    {
      calls == before + gets && tape.told == asked + answers && Answered(host, env, r0, Record())
    }

    /** One more round of reading. */
    method ReadRound(host: Host, now: int, ghost r0: Account, ghost before: seq<Tls.Call>, ghost asked: seq<bool>,
                     ghost gets: seq<Tls.Call>, ghost answers: seq<bool>)
      returns (again: bool, ghost more: seq<Tls.Call>, ghost said: seq<bool>)
      requires Valid() && !failed && phase in {Http, Ws} && writeLen == 0
      requires Further(host, r0, before, asked, gets, answers) && Steady(gets, answers) && |gets| < 16
      modifies this, inbuf, outbuf, msgbuf, tape`told
      ensures Valid() && Same(old(used), old(epoch), old(acceptedAt)) && phase != Handshake && writeLen == 0
      ensures phase == Http ==> old(phase) == Http
      ensures Further(host, r0, before, asked, more, said) && Rounds(more, said)
      ensures again ==> Steady(more, said) && |more| == |gets| + 1 && !failed && phase in {Http, Ws}
      ensures !again && !failed && phase in {Http, Ws} ==> Drained(more, said)
      ensures if old(inlen) < inbuf.Length then more != [] else !again && failed && more == gets && said == answers
      ensures more != [] && Broke(more[|more| - 1]) ==> lost
      ensures lost ==> (more != [] && Broke(more[|more| - 1])) || inlen == inbuf.Length
    {
      hide Valid;
      hide Answered;
      hide Rounds;
      hide Drained;
      ghost var r := Record();
      ShapeOfValid();
      SteadyRounds(gets, answers);
      again := ReadOnce(host, now);
      FailureOfValid();
      AnsweredTwice(host, env, r0, r, Record());
      more, said := gets, answers;
      if |calls| > |old(calls)| {
        ghost var call, answer := calls[|old(calls)|], tape.told[|old(tape.told)|..];
        OneMoreRound(gets, answers, call, answer);
        more, said := gets + [call], answers + answer;
      }
    }

    /** Reads while decrypted data is pending, at most 16 times. */
    method ReadLoop(host: Host, now: int) returns (ghost gets: seq<Tls.Call>, ghost answers: seq<bool>)
      requires Valid() && !failed && phase in {Http, Ws} && writeLen == 0
      modifies this, inbuf, outbuf, msgbuf, tape`told
      ensures Valid() && Same(old(used), old(epoch), old(acceptedAt))
      ensures phase != Handshake && writeLen == 0
      ensures phase == Http ==> old(phase) == Http
      ensures calls == old(calls) + gets && tape.told == old(tape.told) + answers && Rounds(gets, answers)
      ensures if old(inlen) < inbuf.Length then gets != [] else failed && gets == [] && answers == []
      ensures !failed && phase in {Http, Ws} ==> Drained(gets, answers)
      ensures gets != [] && Broke(gets[|gets| - 1]) ==> lost
      ensures lost ==> (gets != [] && Broke(gets[|gets| - 1])) || inlen == inbuf.Length
      ensures Answered(host, env, old(Record()), Record())
    {
      hide Valid;
      hide Answered;
      hide Rounds;
      hide Drained;
      hide Steady;
      hide Broke;
      ghost var r0 := Record();
      AnsweredNone(host, env, r0);
      ShapeOfValid();
      gets, answers := [], [];
      NoReads();
      for round := 0 to 16
        invariant Valid() && Same(old(used), old(epoch), old(acceptedAt))
        invariant !failed && phase in {Http, Ws} && writeLen == 0
        invariant phase == Http ==> old(phase) == Http
        invariant Further(host, r0, old(calls), old(tape.told), gets, answers)
        invariant Steady(gets, answers) && |gets| == round && (gets == [] ==> answers == [])
        invariant if round == 0 then inlen == old(inlen) else old(inlen) < inbuf.Length
      {
        var again;
        again, gets, answers := ReadRound(host, now, r0, old(calls), old(tape.told), gets, answers);
        if !again {
          return;
        }
      }
      SteadyRounds(gets, answers);
      FailureOfValid();
      SteadyGoesOn(gets, answers);
    }

    lemma FailureOfValid()
      requires Valid()
      ensures failed == (overrun || lost)
    {
    }

    method Flush(now: int)
      requires Valid() && !failed && phase != Handshake && readWait != ForOutput && outlen > 0
      modifies this`failed, this`lost, this`writeStarted, this`outlen, this`writeLen, this`writeWait, this`calls, outbuf
      ensures Valid() && |calls| == |old(calls)| + 1 && calls[..|old(calls)|] == old(calls)
      ensures calls[|old(calls)|].Write? && Marked(calls[|old(calls)|].result, now)
      ensures calls[|old(calls)|].offered == old(outbuf[..if writeLen > 0 then writeLen else outlen])
    {
      hide InputOk;
      hide Payloads;
      hide Session.PongsDue;
      hide Conserved;
      hide Due;
      hide UpgradeItems;
      hide Session.MayUpgrade;
      hide Session.Messages;
      hide Returned;
      ghost var got := Returned(calls);
      if hasCtrl {
        UpgradeGrows(items, failed, Outgoing(OP_TEXT, []));
      }
      FlushOutput(now);
      InputUnmoved(got);
      assert calls == old(calls) + [calls[|old(calls)|]];
      ReturnedSnoc(old(calls), calls[|old(calls)|]);
    }

    /** Gives the controller of a connection a device event; whatever it sends is queued. */
    method DeviceEvent(ev: Protocol.Event, now: int)
      requires Valid() && hasCtrl
      modifies this`failed, this`overrun, this`writeStarted, this`outlen, this`items, this`spoken, tape`felt, outbuf
      ensures Valid() && |tape.felt| == |old(tape.felt)| + 1
      ensures var did := tape.felt[|old(tape.felt)|];
              && tape.felt == old(tape.felt) + [did] && did.event == ev
              && spoken == old(spoken) + did.texts && (old(failed) ==> failed)
              && (!failed ==> items == old(items) + TextItems(did.texts))
    {
      hide Payloads;
      hide Conserved;
      hide Due;
      hide UpgradeItems;
      hide Session.MayUpgrade;
      hide Session.Messages;
      hide Session.Deliver;
      hide Session.ReadsFit;
      hide PingsAnswered;
      ghost var r := Record();
      var texts := tape.Reaction(ev);
      SendAll(texts, now);
      TextsInBetween(r, Record(), texts);
    }

    /** What a turn of the loop goes by. */
    ghost function Look(): Glance
      reads this
    {
      Glance(phase, failed, overrun, lost, tlsWait, outlen, writeLen, writeWait, readWait, inlen, acceptedAt,
             writeStarted, calls)
    }

    /** The input part of a turn. */
    method TakeInput(host: Host, ev: Revents, now: int) returns (ghost gets: seq<Tls.Call>, ghost answers: seq<bool>)
      requires Valid() && phase != Handshake && (failed ==> writeLen > 0)
      modifies this, inbuf, outbuf, msgbuf, tape`told
      ensures Valid() && Same(old(used), old(epoch), old(acceptedAt)) && phase != Handshake
      ensures phase == Http ==> old(phase) == Http
      ensures calls == old(calls) + gets && tape.told == old(tape.told) + answers
      ensures TookInput(old(Look()), ev, old(writeLen) > 0, gets, answers)
      ensures !failed && phase in {Http, Ws} ==> Drained(gets, Between(old(Look()), ev, answers))
      ensures old(lost) || (gets != [] && Broke(gets[|gets| - 1])) ==> lost
      ensures lost ==> old(lost) || (gets != [] && Broke(gets[|gets| - 1])) || inlen == inbuf.Length
      ensures Answered(host, env, old(Record()), Record())
    {
      hide Valid;
      hide Answered;
      hide Rounds;
      hide Drained;
      hide TookInput;
      hide Between;
      AnsweredNone(host, env, Record());
      FailureOfValid();
      ShapeOfValid();
      ghost var g := Look();
      gets, answers := [], [];
      if writeLen > 0 || phase == Closing {
        NoInput(g, ev);
      } else {
        NoReads();
        var go := if readWait == NoWait then ev.input else Hits(ev, readWait);
        if !go {
          go := tape.SslPending();
          answers := [go];
        }
        ghost var asked, more := answers, [];
        if go {
          gets, more := ReadLoop(host, now);
        }
        InputTaken(g, ev, asked, gets, more);
        answers := asked + more;
      }
    }

    /** The output part of a turn. */
    method GiveOutput(ev: Revents, now: int) returns (ghost made: seq<Tls.Call>)
      requires Valid() && !failed && phase != Handshake
      modifies this`failed, this`lost, this`writeStarted, this`outlen, this`writeLen, this`writeWait, this`calls, outbuf
      ensures Valid() && calls == old(calls) + made && (failed ==> writeLen > 0)
      ensures if old(Look()).WritesNow(ev) then |made| == 1 && made[0].Write? else made == []
      ensures writeLen > 0 <==> old(Look()).LeavesPending(ev, made)
      ensures lost <==> made != [] && Broke(made[0])
    {
      hide Valid;
      FailureOfValid();
      made := [];
      if outlen > 0 && readWait != ForOutput && (writeWait == NoWait || Hits(ev, writeWait)) {
        Flush(now);
        made := [calls[|old(calls)|]];
        FailureOfValid();
      }
    }

    /** The data part of a turn: first the output, then, unless a write is left unfinished, the input. */
    method Exchange(host: Host, ev: Revents, now: int) returns (ghost made: seq<Tls.Call>, ghost answers: seq<bool>)
      requires Valid() && !failed && phase != Handshake
      modifies this, inbuf, outbuf, msgbuf, tape`told
      ensures Valid() && Same(old(used), old(epoch), old(acceptedAt)) && phase != Handshake
      ensures phase == Http ==> old(phase) == Http
      ensures calls == old(calls) + made && tape.told == old(tape.told) + answers
      ensures Exchanged(old(Look()), ev, made, answers)
      ensures !failed && phase in {Http, Ws} ==>
                Drained(ReadsIn(old(Look()), ev, made), Between(old(Look()), ev, answers))
      ensures made != [] && Broke(made[|made| - 1]) ==> lost
      ensures lost ==> (made != [] && Broke(made[|made| - 1])) || inlen == inbuf.Length
      ensures Answered(host, env, old(Record()), Record())
    {
      hide Between;
      hide ReadsIn;
      hide Glance.WritesNow;
      hide Glance.LeavesPending;
      hide Valid;
      hide Answered;
      hide Rounds;
      hide Drained;
      hide Exchanged;
      hide TookInput;
      ghost var r0, g := Record(), Look();
      FailureOfValid();
      ghost var first := GiveOutput(ev, now);
      AnsweredFailure(host, env, r0, Record());
      ghost var r, h := Record(), Look();
      ghost var gets;
      gets, answers := TakeInput(host, ev, now);
      AnsweredTwice(host, env, r0, r, Record());
      made := first + gets;
      SameInput(g, h, ev, h.writeLen > 0, gets, answers);
      TurnMade(g, ev, first, gets, answers);
      WriteLast(g, ev, first, gets, answers);
    }

    lemma WaitsForSomething()
      requires Valid() && !failed && (phase == Closing ==> outlen > 0)
      ensures Interest().input || Interest().output
    {
    }

    lemma ShapeOfValid()
      requires Valid()
      ensures Shape()
    {
    }

    lemma DisciplineOfValid()
      requires Valid()
      ensures Disciplined(calls)
    {
    }

    lemma ShapeOfReady()
      requires Ready()
      ensures Shape()
    {
    }

    /** Poll is asked for exactly what the unfinished call waits for. */
    lemma AsksForUnfinished()
      requires Valid() && !failed && phase != Handshake && calls != []
      ensures match calls[|calls| - 1]
              case Write(_, WriteWantsRead) => Interest() == Mask(true, false)
              case Write(_, WriteWantsWrite) => Interest() == Mask(false, true)
              case Read(ReadWantsWrite) => Interest() == Mask(false, true)
              case _ => writeLen == 0 && readWait != ForOutput && Interest() == Mask(phase != Closing, outlen > 0)
    {
      hide Conserved;
      hide InputOk;
      hide UpgradeOk;
      hide PingsAnswered;
    }

    /** Poll is never asked in vain: when something that the connection asks for happens, its turn makes a call of
        the library, unless its input buffer is full. */
    lemma NoIdleWakeup(ev: Revents, d: Deeds)
      requires Valid() && !failed && !ev.broken && !Look().Overdue(d.now) && Fair(Look(), ev, d)
      requires (ev.input && Interest().input) || (ev.output && Interest().output)
      ensures d.accept.Some? || d.made != [] || inlen == inbuf.Length
    {
      hide Conserved;
      hide InputOk;
      hide UpgradeOk;
      hide PingsAnswered;
      hide Rounds;
      hide DutyAfter;
      hide WaitAfter;
    }

    /** Gives up a connection that hung up or is overdue. */
    method CheckTime(ev: Revents, now: int)
      requires Valid()
      modifies this`failed, this`lost
      ensures Valid() && failed == (old(failed) || ev.broken || old(Look()).Overdue(now))
      ensures lost == (old(lost) || ev.broken || old(Look()).Overdue(now))
    {
      hide Valid;
      if ev.broken
         || ((phase == Handshake || phase == Http) && now - acceptedAt >= IO_TIMEOUT)
         || (outlen > 0 && now - writeStarted >= IO_TIMEOUT) {
        Fail();
      }
    }

    /** The turn of a live connection after poll, but for its end. */
    method Act(host: Host, ev: Revents, now: int) returns (ghost did: Deeds)
      requires used && Valid()
      modifies this, inbuf, outbuf, msgbuf, tape`told, tape`shakes
      ensures Valid() && used && epoch == old(epoch) && acceptedAt == old(acceptedAt)
      ensures did.now == now && Fair(old(Look()), ev, did)
      ensures calls == old(calls) + did.made && tape.told == old(tape.told) + did.told
      ensures tape.shakes == old(tape.shakes) + (if did.accept.Some? then [did.accept.value] else [])
      ensures (old(failed) ==> failed) && (old(overrun) ==> overrun)
      ensures GivesUp(old(Look()), ev, did) ==> lost
      ensures lost ==> GivesUp(old(Look()), ev, did) || inlen == inbuf.Length
      ensures !failed && phase in {Http, Ws} ==>
                Drained(ReadsIn(old(Look()), ev, did.made), Between(old(Look()), ev, did.told))
      ensures phase == Handshake <==> old(phase) == Handshake && did.accept != Some(Accepted)
      ensures did.accept == Some(AcceptWantsRead) ==> tlsWait == ForInput
      ensures did.accept == Some(AcceptWantsWrite) ==> tlsWait == ForOutput
      ensures phase in {Handshake, Http} ==> old(phase) in {Handshake, Http}
      ensures Answered(host, env, old(Record()), Record())
    {
      hide ReadsIn;
      hide Between;
      hide Valid;
      hide Shape;
      hide Answered;
      hide Exchanged;
      hide Drained;
      FailureOfValid();
      did := Deeds(now, None, [], []);
      CheckTime(ev, now);
      AnsweredFailure(host, env, old(Record()), Record());
      if !failed && phase == Handshake && Hits(ev, tlsWait) {
        var r := ContinueHandshake();
        did := did.(accept := Some(r));
        AnsweredFailure(host, env, old(Record()), Record());
      }
      if !failed && phase != Handshake {
        ghost var r := Record();
        ghost var made, answers;
        made, answers := Exchange(host, ev, now);
        if old(phase) == Handshake { PhaseOnly(old(Look()), ev, made, answers); }
        did := did.(made := made, told := answers);
        AnsweredTwice(host, env, old(Record()), r, Record());
      }
    }

    /** How the connection stands, or how the last one stood when it was closed. */
    ghost function End(): Glance
      reads this
    {
      if used then Look() else last
    }

    /** The turn of a live connection after poll. */
    method Service(host: Host, ev: Revents, now: int) returns (ghost did: Deeds)
      requires used && Valid()
      modifies this, inbuf, outbuf, msgbuf, tape`told, tape`shakes
      ensures Ready() && epoch == old(epoch)
      ensures did.now == now && Serves(old(Look()), ev, did, used, End())
      ensures tape.told == old(tape.told) + did.told
      ensures tape.shakes == old(tape.shakes) + (if did.accept.Some? then [did.accept.value] else [])
      ensures used ==> (phase == Handshake <==> old(phase) == Handshake && did.accept != Some(Accepted))
      ensures used && did.accept == Some(AcceptWantsRead) ==> tlsWait == ForInput
      ensures used && did.accept == Some(AcceptWantsWrite) ==> tlsWait == ForOutput
      ensures used && phase in {Handshake, Http} ==> acceptedAt == old(acceptedAt) && now - acceptedAt < 10
      ensures used ==> Answered(host, env, old(Record()), Record())
    {
      hide Valid;
      hide Shape;
      hide Interest;
      hide Answered;
      hide Exchanged;
      hide Fair;
      hide Drained;
      hide Disciplined;
      FailureOfValid();
      did := Act(host, ev, now);
      DisciplineOfValid();
      FailureOfValid();
      if failed || (phase == Closing && outlen == 0) {
        ShapeOfValid();
        CloseClient();
      } else {
        WaitsForSomething();
      }
    }
  }
}
