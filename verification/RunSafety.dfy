/** More laws of whole runs: gates, the verdict, stale replies, timeouts and stale data. */
module RunSafety {
  import opened Bytes
  import opened GramSchmidt
  import opened Camera
  import opened Wamp
  import opened Protocol
  import opened Runs
  import opened RunLaws

  // ----- the handshake and the verdict -----

  function StageRank(hs: Stage): nat {
    match hs case WaitMouse => 0 case WaitController => 1 case Ready => 2
  }

  /** The stage a message leads to depends on the stage and the message alone. */
  function StageAfter(hs: Stage, json: Option<Json>): Stage {
    if WellFormed(json) && Kind(json) == WAMP_CALL && CallAccepted(hs, json.value.items) then
      (match hs case WaitMouse => WaitController case WaitController => Ready case Ready => Ready)
    else hs
  }

  /** What an input may do to the gates: the stage only moves forward, recognition is settled once
      ready, a subscription is never lost. */
  ghost predicate GatesMove(c: Control, d: Control) {
    && StageRank(c.hs) <= StageRank(d.hs)
    && (c.hs == Ready ==> d.known == c.known)
    && (c.subscribed ==> d.subscribed)
  }

  lemma FinishedGates(s: State, now: int, id: string)
    ensures var d := Finished(s, now, id).s.c;
            && d.hs == s.c.hs && d.known == s.c.known && d.subscribed == s.c.subscribed && d.focus == s.c.focus
            && d.prefixes == s.c.prefixes && d.sens == s.c.sens
  {
  }

  lemma ReplyGates(lib: Libm, s: State, items: seq<Json>, isError: bool, now: int, id: string)
    requires Consistent(s)
    ensures var d := OnReply(lib, s, items, isError, now, id).s.c;
            && d.hs == s.c.hs && d.known == s.c.known && d.subscribed == s.c.subscribed && d.focus == s.c.focus
            && d.prefixes == s.c.prefixes && d.sens == s.c.sens
  {
    hide Advance;
    hide Finished;
    if Awaited(s.c, items) {
      if isError {
        FinishedGates(s, now, id);
      } else {
        var result := Item(items, 2);
        AdvanceShape(lib, s, result, now, id);
        if ReplyEnds(s.c, result) {
          EndingKeeps(s, result);
          FinishedGates(EndingState(s, result), now, id);
        }
      }
    }
  }

  lemma OnCallGates(s: State, items: seq<Json>)
    requires CallAccepted(s.c.hs, items)
    ensures var d := OnCall(s, items).s.c;
            d.hs == (if s.c.hs == WaitMouse then WaitController else Ready) && d.subscribed == s.c.subscribed
            && (s.c.hs == Ready ==> d.known == s.c.known)
  {
  }

  lemma NextGates(lib: Libm, s: State, i: Input)
    requires Consistent(s)
    ensures GatesMove(s.c, Next(lib, s, i).s.c)
    ensures Next(lib, s, i).s.c.hs == match i case Message(json, _, _) => StageAfter(s.c.hs, json) case _ => s.c.hs
  {
    hide OnReply;
    hide OnCall;
    hide Resolve;
    match i
    case Device(ev, now, id) =>
    case Sensitivity(_) =>
    case Message(json, now, id) =>
      if Accepts(s.c.hs, json) {
        var items, kind := json.value.items, Kind(json);
        if kind == WAMP_CALL { OnCallGates(s, items); }
        if kind == WAMP_CALLRESULT || kind == WAMP_CALLERROR {
          ReplyGates(lib, s, items, kind == WAMP_CALLERROR, now, id);
        }
      }
  }

  /** Over every run the stage never goes back, and once the client is ready its recognition is final. */
  lemma {:induction false} GatesOverRuns(lib: Libm, s0: State, inputs: seq<Input>)
    requires Consistent(s0)
    ensures GatesMove(s0.c, Run(lib, s0, inputs).s.c)
    decreases |inputs|
  {
    hide Next;
    if inputs != [] {
      var front, i := inputs[..|inputs| - 1], inputs[|inputs| - 1];
      GatesOverRuns(lib, s0, front);
      RunConsistent(lib, s0, front);
      NextGates(lib, Run(lib, s0, front).s, i);
    }
  }

  /** A client that was not recognised when its controller was created is never sent an RPC. */
  lemma {:induction false} UnrecognisedStaysMuted(lib: Libm, s0: State, inputs: seq<Input>)
    requires Consistent(s0) && s0.c.hs == Ready && !s0.c.known
    ensures Calls(Run(lib, s0, inputs).sent) == []
    decreases |inputs|
  {
    hide Next;
    if inputs != [] {
      var front, i := inputs[..|inputs| - 1], inputs[|inputs| - 1];
      UnrecognisedStaysMuted(lib, s0, front);
      var before := Run(lib, s0, front);
      RunConsistent(lib, s0, front);
      GatesOverRuns(lib, s0, front);
      NextShape(lib, before.s, i);
      NextGates(lib, before.s, i);
      CallsConcat(before.sent, Next(lib, before.s, i).sent);
    }
  }

  /** Some input of the run was this device event, and the gates stood open when it came. */
  ghost predicate CameThroughGates(lib: Libm, s0: State, inputs: seq<Input>, e: Event) {
    exists k :: 0 <= k < |inputs| && LetIn(lib, s0, inputs, e, k)
  }

  ghost predicate LetIn(lib: Libm, s0: State, inputs: seq<Input>, e: Event, k: nat)
    requires k < |inputs|
  {
    var c := Run(lib, s0, inputs[..k]).s.c;
    inputs[k].Device? && inputs[k].ev == e && c.hs == Ready && c.known && c.subscribed && c.focus
  }

  lemma LetInEarlier(lib: Libm, s0: State, inputs: seq<Input>, e: Event)
    requires inputs != [] && CameThroughGates(lib, s0, inputs[..|inputs| - 1], e)
    ensures CameThroughGates(lib, s0, inputs, e)
  {
    hide Run;
    var front := inputs[..|inputs| - 1];
    var k :| 0 <= k < |front| && LetIn(lib, s0, front, e, k);
    assert front[..k] == inputs[..k];
    assert LetIn(lib, s0, inputs, e, k);
  }

  /** Every event on the books was let in while the client was ready, recognised, subscribed and focused. */
  lemma {:induction false} AcceptedWereOpen(lib: Libm, s0: State, inputs: seq<Input>, e: Event)
    requires e in Books(lib, s0, inputs).accepted
    ensures CameThroughGates(lib, s0, inputs, e)
    decreases |inputs|
  {
    hide Run;
    hide Settle;
    var front, i := inputs[..|inputs| - 1], inputs[|inputs| - 1];
    if e in Books(lib, s0, front).accepted {
      AcceptedWereOpen(lib, s0, front, e);
      LetInEarlier(lib, s0, inputs, e);
    } else {
      SettleAccepts(Books(lib, s0, front));
      assert LetIn(lib, s0, inputs, e, |inputs| - 1);
    }
  }

  lemma SettleAccepts(l: Ledger)
    ensures Settle(l).accepted == l.accepted
  {
  }

  lemma BalancedMember(l: Ledger, e: Event)
    requires RunLaws.Balanced(l) && (e in l.started || e in l.queue)
    ensures e in l.accepted
  {
    assert e in multiset(l.accepted);
  }

  /** Whatever a chain works on or waits for was let in through open gates, even if focus was lost since:
      the event of a running motion chain, the saved event, and the button press behind a running reset. */
  lemma UsedWereOpen(lib: Libm, s0: State, inputs: seq<Input>)
    requires Consistent(s0) && s0.c.chain == NoChain
    ensures var s := Run(lib, s0, inputs).s;
            && (s.c.chain == MotionChain ==> CameThroughGates(lib, s0, inputs, s.d.active))
            && (s.c.pendingMotion ==> CameThroughGates(lib, s0, inputs, s.d.saved))
            && (s.c.chain == ButtonChain ==> exists e: Event :: !e.isMotion && CameThroughGates(lib, s0, inputs, e))
            && (s.c.pendingButton ==> exists e: Event :: !e.isMotion && CameThroughGates(lib, s0, inputs, e))
  {
    hide Run;
    hide Books;
    hide Consistent;
    hide CameThroughGates;
    hide RunLaws.Balanced;
    CoalescingRefines(lib, s0, inputs);
    var l := Books(lib, s0, inputs);
    forall e: Event | e in l.started || e in l.queue
      ensures CameThroughGates(lib, s0, inputs, e)
    {
      BalancedMember(l, e);
      AcceptedWereOpen(lib, s0, inputs, e);
    }
  }

  function MessagesOf(inputs: seq<Input>): seq<Option<Json>> {
    if inputs == [] then []
    else MessagesOf(inputs[..|inputs| - 1]) +
         (if inputs[|inputs| - 1].Message? then [inputs[|inputs| - 1].json] else [])
  }

  function StageOf(hs: Stage, messages: seq<Option<Json>>): Stage {
    if messages == [] then hs else StageAfter(StageOf(hs, messages[..|messages| - 1]), messages[|messages| - 1])
  }

  /** The verdict on a message is a function of the messages so far: device events, clock, call ids,
      replies' timing and sensitivity changes in between make no difference. */
  lemma {:induction false} VerdictIsDeterministic(lib: Libm, s0: State, inputs: seq<Input>, json: Option<Json>)
    requires Consistent(s0)
    ensures Run(lib, s0, inputs).s.c.hs == StageOf(s0.c.hs, MessagesOf(inputs))
    ensures Accepts(Run(lib, s0, inputs).s.c.hs, json) == Accepts(StageOf(s0.c.hs, MessagesOf(inputs)), json)
    decreases |inputs|
  {
    hide Next;
    hide StageAfter;
    hide Accepts;
    if inputs != [] {
      var front, i := inputs[..|inputs| - 1], inputs[|inputs| - 1];
      VerdictIsDeterministic(lib, s0, front, json);
      RunConsistent(lib, s0, front);
      NextGates(lib, Run(lib, s0, front).s, i);
      var ms := MessagesOf(front);
      if i.Message? {
        assert (ms + [i.json])[..|ms|] == ms;
      } else {
        assert ms + [] == ms;
      }
    }
  }

  // ----- call ids -----

  /** The ids of the RPCs sent, in order. */
  function Issued(sent: seq<Sent>): seq<string> {
    if sent == [] then []
    else Issued(sent[..|sent| - 1]) + (if sent[|sent| - 1].Rpc? then [sent[|sent| - 1].callId] else [])
  }

  lemma {:induction false} IssuedConcat(a: seq<Sent>, b: seq<Sent>)
    ensures Issued(a + b) == Issued(a) + Issued(b)
  {
    if b == [] {
      assert a + b == a;
    } else {
      assert (a + b)[..|a + b| - 1] == a + b[..|b| - 1];
      IssuedConcat(a, b[..|b| - 1]);
    }
  }

  /** The supply never hands out the same id twice. */
  ghost predicate FreshIds(inputs: seq<Input>) {
    forall j, k :: 0 <= j < k < |inputs| && !inputs[j].Sensitivity? && !inputs[k].Sensitivity? ==>
      IdOf(inputs[j]) != IdOf(inputs[k])
  }

  ghost predicate AwaitsLast(s: State, issued: seq<string>) {
    s.c.chain != NoChain ==> issued != [] && issued[|issued| - 1] == s.c.callId
  }

  ghost predicate Distinct(ids: seq<string>) {
    forall j, k :: 0 <= j < k < |ids| ==> ids[j] != ids[k]
  }

  lemma FinishedIssues(s: State, now: int, id: string)
    ensures var o := Finished(s, now, id);
            if o.s.c.chain == NoChain then Issued(o.sent) == [] else Issued(o.sent) == [id] && o.s.c.callId == id
  {
  }

  lemma IssuedOfOne(x: Sent)
    ensures Issued([x]) == if x.Rpc? then [x.callId] else []
  {
  }

  /** An input either issues nothing and changes no running chain's id, or issues its own id, which
      becomes the awaited one. */
  ghost predicate IssuesOwn(s: State, o: Out, i: Input) {
    || (Issued(o.sent) == [] && (o.s.c.chain == NoChain || (o.s.c.chain == s.c.chain && o.s.c.callId == s.c.callId)))
    || (Issued(o.sent) == [IdOf(i)] && o.s.c.callId == IdOf(i) && !i.Sensitivity?)
  }

  lemma ReplyIssues(lib: Libm, s: State, items: seq<Json>, isError: bool, now: int, id: string)
    requires Consistent(s)
    ensures var o := OnReply(lib, s, items, isError, now, id);
            || (Issued(o.sent) == []
                && (o.s.c.chain == NoChain || (o.s.c.chain == s.c.chain && o.s.c.callId == s.c.callId)))
            || (Issued(o.sent) == [id] && o.s.c.callId == id)
  {
    hide Advance;
    hide Finished;
    if Awaited(s.c, items) {
      if isError {
        FinishedIssues(s, now, id);
      } else {
        var result := Item(items, 2);
        AdvanceShape(lib, s, result, now, id);
        if ReplyEnds(s.c, result) {
          FinishedIssues(EndingState(s, result), now, id);
        } else {
          IssuedOfOne(Advance(lib, s, result, now, id).sent[0]);
        }
      }
    }
  }

  lemma NextIssues(lib: Libm, s: State, i: Input)
    requires Consistent(s)
    ensures IssuesOwn(s, Next(lib, s, i), i)
  {
    hide OnReply;
    hide OnCall;
    hide Resolve;
    match i
    case Device(ev, now, id) => IssuedOfOne(Rpc(id, false, ModelExtents, None));
    case Sensitivity(_) =>
    case Message(json, now, id) =>
      if Accepts(s.c.hs, json) {
        var items, kind := json.value.items, Kind(json);
        if kind == WAMP_CALL { OnCallIssues(s, items); }
        if kind == WAMP_CALLRESULT || kind == WAMP_CALLERROR {
          ReplyIssues(lib, s, items, kind == WAMP_CALLERROR, now, id);
        }
      }
  }

  lemma OnCallIssues(s: State, items: seq<Json>)
    requires CallAccepted(s.c.hs, items)
    ensures var o := OnCall(s, items);
            Issued(o.sent) == [] && o.s.c.chain == s.c.chain && o.s.c.callId == s.c.callId
  {
    hide Resolve;
    hide Field;
    hide KnownClient;
    hide Take;
    IssuedOfOne(OnCall(s, items).sent[0]);
  }

  /** The id was supplied with one of the inputs. */
  ghost predicate Supplied(inputs: seq<Input>, id: string) {
    exists k :: 0 <= k < |inputs| && !inputs[k].Sensitivity? && IdOf(inputs[k]) == id
  }

  ghost predicate AllSupplied(inputs: seq<Input>, ids: seq<string>) {
    forall j :: 0 <= j < |ids| ==> Supplied(inputs, ids[j])
  }

  lemma IdsGrow(inputs: seq<Input>, ids: seq<string>, more: seq<string>)
    requires inputs != [] && FreshIds(inputs) && AllSupplied(inputs[..|inputs| - 1], ids) && Distinct(ids)
    requires more == [] || (more == [IdOf(inputs[|inputs| - 1])] && !inputs[|inputs| - 1].Sensitivity?)
    ensures AllSupplied(inputs, ids + more) && Distinct(ids + more)
  {
  }

  /** With a fresh supply the ids sent are all different, come from the inputs, and a running chain
      waits for the last one. */
  lemma {:induction false} IdsOverRuns(lib: Libm, s0: State, inputs: seq<Input>)
    requires Consistent(s0) && s0.c.chain == NoChain && FreshIds(inputs)
    ensures var o := Run(lib, s0, inputs);
            && Consistent(o.s) && AwaitsLast(o.s, Issued(o.sent))
            && Distinct(Issued(o.sent)) && AllSupplied(inputs, Issued(o.sent))
    decreases |inputs|
  {
    hide Next;
    hide Supplied;
    if inputs != [] {
      var front, i := inputs[..|inputs| - 1], inputs[|inputs| - 1];
      IdsOverRuns(lib, s0, front);
      var before := Run(lib, s0, front);
      var o := Next(lib, before.s, i);
      NextShape(lib, before.s, i);
      NextIssues(lib, before.s, i);
      IssuedConcat(before.sent, o.sent);
      IdsGrow(inputs, Issued(before.sent), Issued(o.sent));
    }
  }

  /** A reply that carries the id of any RPC other than the one a running chain waits for, be it of a
      finished, abandoned or already advanced chain, changes nothing and sends nothing. */
  lemma StaleReplyIgnored(lib: Libm, s0: State, inputs: seq<Input>, json: Option<Json>, k: nat, now: int, id: string)
    requires Consistent(s0) && s0.c.chain == NoChain && FreshIds(inputs)
    requires var o := Run(lib, s0, inputs);
             && WellFormed(json) && (Kind(json) == 3 || Kind(json) == 4)
             && k < |Issued(o.sent)| && StrItem(json.value.items, 1) == Some(Issued(o.sent)[k])
             && (k < |Issued(o.sent)| - 1 || o.s.c.chain == NoChain)
    ensures Next(lib, Run(lib, s0, inputs).s, Message(json, now, id)) == Out(Run(lib, s0, inputs).s, [])
  {
    IdsOverRuns(lib, s0, inputs);
  }

  // ----- timeouts -----

  /** An event changes nothing and sends nothing unless the client is ready, recognised, subscribed and
      focused. */
  lemma ClosedGatesIgnore(s: State, ev: Event, now: int, id: string)
    requires s.c.hs != Ready || !s.c.known || !s.c.subscribed || !s.c.focus
    ensures OnDevice(s, ev, now, id) == Out(s, [])
  {
  }

  /** With all four gates open, an event that finds no chain, or one at least ten seconds old, starts a
      chain on itself with nothing pending; so a chain is only ever waited for while it is younger. */
  lemma TimeoutRecovers(s: State, ev: Event, now: int, id: string)
    requires Consistent(s) && s.c.hs == Ready && s.c.known && s.c.subscribed && s.c.focus
    ensures var o := OnDevice(s, ev, now, id);
            if s.c.chain == NoChain || now - s.c.started >= 10 then
              Starts(o, now, id) && (o.s.c.chain == MotionChain) == ev.isMotion && (ev.isMotion ==> o.s.d.active == ev)
            else
              && Waits(s, o) && o.sent == []
              && (if ev.isMotion then o.s.c.pendingMotion && o.s.d.saved == ev else o.s.c.pendingButton)
  {
  }

  /** No reply refreshes the age of a chain: its start time is the time of the input that started it. */
  lemma AgeNeverRefreshed(lib: Libm, s: State, i: Input)
    requires Consistent(s) && s.c.chain != NoChain
    ensures var o := Next(lib, s, i);
            || o.s.c.chain == NoChain
            || (o.s.c.started == s.c.started && Rank(o.s.c.step) <= Rank(s.c.step))
            || (Starts(o, NowOf(i), IdOf(i)) && o.s.c.started == NowOf(i))
  {
    NextShape(lib, s, i);
  }

  /** Input k started a chain. */
  ghost predicate StartedAt(lib: Libm, s0: State, inputs: seq<Input>, k: nat)
    requires k < |inputs|
  {
    Starts(Next(lib, Run(lib, s0, inputs[..k]).s, inputs[k]), NowOf(inputs[k]), IdOf(inputs[k]))
  }

  /** The age of a running chain is counted from the input that started it, over every run: no replies
      in between, however many, make it younger. */
  lemma {:induction false} AgeOverRuns(lib: Libm, s0: State, inputs: seq<Input>) returns (k: nat)
    requires Consistent(s0) && s0.c.chain == NoChain && Run(lib, s0, inputs).s.c.chain != NoChain
    ensures k < |inputs| && StartedAt(lib, s0, inputs, k) && Run(lib, s0, inputs).s.c.started == NowOf(inputs[k])
    decreases |inputs|
  {
    hide Next;
    hide Starts;
    var front, i := inputs[..|inputs| - 1], inputs[|inputs| - 1];
    var s := Run(lib, s0, front).s;
    RunConsistent(lib, s0, front);
    StartOrKeep(lib, s, i);
    if Starts(Next(lib, s, i), NowOf(i), IdOf(i)) {
      k := |front|;
      StartTime(Next(lib, s, i), NowOf(i), IdOf(i));
    } else {
      k := AgeOverRuns(lib, s0, front);
      assert front[..k] == inputs[..k];
    }
  }

  lemma StartOrKeep(lib: Libm, s: State, i: Input)
    requires Consistent(s)
    ensures var o := Next(lib, s, i);
            || o.s.c.chain == NoChain || Starts(o, NowOf(i), IdOf(i))
            || (s.c.chain != NoChain && o.s.c.started == s.c.started)
  {
    hide Next;
    NextShape(lib, s, i);
  }

  lemma StartTime(o: Out, now: int, id: string)
    requires Starts(o, now, id)
    ensures o.s.c.started == now
  {
  }

  /** No pattern of replies wedges a connection: over every run, with the gates open, an event either
      starts a chain on itself with nothing pending, or the running chain was started by an input less
      than ten seconds ago. */
  lemma NeverWedged(lib: Libm, s0: State, inputs: seq<Input>, ev: Event, now: int, id: string)
    requires Consistent(s0) && s0.c.chain == NoChain
    requires var c := Run(lib, s0, inputs).s.c; c.hs == Ready && c.known && c.subscribed && c.focus
    ensures var o := OnDevice(Run(lib, s0, inputs).s, ev, now, id);
            || (Starts(o, now, id) && (o.s.c.chain == MotionChain) == ev.isMotion
                && (ev.isMotion ==> o.s.d.active == ev))
            || exists k: nat :: k < |inputs| && StartedAt(lib, s0, inputs, k) && now - NowOf(inputs[k]) < 10
  {
    hide Starts;
    hide StartedAt;
    hide Run;
    var s := Run(lib, s0, inputs).s;
    RunConsistent(lib, s0, inputs);
    TimeoutRecovers(s, ev, now, id);
    if s.c.chain != NoChain && now - s.c.started < 10 {
      var k := AgeOverRuns(lib, s0, inputs);
    }
  }

  // ----- no stale data -----

  predicate HoldsNext(p: Step) {
    p.MReadViewExtents? || p.MWriteMotion? || p.MWriteViewExtents? || p.MWriteAffine?
  }

  predicate HoldsViewExtents(p: Step) {
    p.MWriteMotion? || p.MWriteViewExtents?
  }

  /** Equal in everything that can still matter. */
  ghost predicate Agree(s: State, t: State) {
    && s.c == t.c
    && (s.c.pendingMotion ==> s.d.saved == t.d.saved)
    && (s.c.chain == MotionChain ==> s.d.active == t.d.active)
    && (s.c.chain != NoChain && !s.c.step.MReadExtents? && !s.c.step.BReadExtents? ==> s.d.extents == t.d.extents)
    && (s.c.chain == MotionChain && !s.c.step.MReadExtents? && !s.c.step.MReadPerspective? ==>
          s.d.perspective == t.d.perspective)
    && (s.c.chain == MotionChain && HoldsNext(s.c.step) ==> s.d.next == t.d.next)
    && (s.c.chain == MotionChain && HoldsViewExtents(s.c.step) && !s.d.perspective ==>
          s.d.viewExtents == t.d.viewExtents)
  }

  /** A step that leaves data, chain, step and pending motion alone keeps the agreement. */
  lemma AgreeStays(s: State, t: State, s': State, t': State)
    requires Agree(s, t) && s'.d == s.d && t'.d == t.d && s'.c == t'.c
    requires s'.c.chain == s.c.chain && s'.c.step == s.c.step && (s'.c.pendingMotion ==> s.c.pendingMotion)
    ensures Agree(s', t')
  {
  }

  lemma FinishedAgrees(s: State, t: State, now: int, id: string)
    requires s.c == t.c && (s.c.pendingMotion ==> s.d.saved == t.d.saved)
    ensures Agree(Finished(s, now, id).s, Finished(t, now, id).s)
    ensures Finished(s, now, id).sent == Finished(t, now, id).sent
  {
  }

  lemma AdvanceEndsAgree(lib: Libm, s: State, t: State, result: Option<Json>, now: int, id: string)
    requires Consistent(s) && Consistent(t) && Agree(s, t) && s.c.chain != NoChain && ReplyEnds(s.c, result)
    ensures Agree(Advance(lib, s, result, now, id).s, Advance(lib, t, result, now, id).s)
    ensures Advance(lib, s, result, now, id).sent == Advance(lib, t, result, now, id).sent
  {
    hide Advance;
    hide Finished;
    AdvanceEnds(lib, s, result, now, id);
    AdvanceEnds(lib, t, result, now, id);
    EndingKeeps(s, result);
    EndingKeeps(t, result);
    FinishedAgrees(EndingState(s, result), EndingState(t, result), now, id);
  }

  lemma MotionAgrees(lib: Libm, s: State, t: State, result: Option<Json>, now: int, id: string)
    requires Consistent(s) && Consistent(t) && Agree(s, t) && s.c.chain == MotionChain && !ReplyEnds(s.c, result)
    ensures Agree(AdvanceMotion(lib, s, result, now, id).s, AdvanceMotion(lib, t, result, now, id).s)
    ensures AdvanceMotion(lib, s, result, now, id).sent == AdvanceMotion(lib, t, result, now, id).sent
  {
    hide NewAffine;
    hide Overwrite;
    hide Carries;
    hide Numbers;
    hide Scaled;
    hide Zoom;
    hide Finished;
    if s.c.step.MReadExtents? { OverwriteForgets(s.d.extents, t.d.extents, result); }
    if s.c.step.MReadAffine? { OverwriteForgets(s.d.curr, t.d.curr, result); }
    if s.c.step.MReadViewExtents? { OverwriteForgets(s.d.viewExtents, t.d.viewExtents, result); }
  }

  lemma ButtonAgrees(s: State, t: State, result: Option<Json>, now: int, id: string)
    requires Consistent(s) && Consistent(t) && Agree(s, t) && s.c.chain == ButtonChain && !ReplyEnds(s.c, result)
    ensures Agree(AdvanceButton(s, result, now, id).s, AdvanceButton(t, result, now, id).s)
    ensures AdvanceButton(s, result, now, id).sent == AdvanceButton(t, result, now, id).sent
  {
  }

  lemma ReplyAgrees(lib: Libm, s: State, t: State, items: seq<Json>, isError: bool, now: int, id: string)
    requires Consistent(s) && Consistent(t) && Agree(s, t)
    ensures Agree(OnReply(lib, s, items, isError, now, id).s, OnReply(lib, t, items, isError, now, id).s)
    ensures OnReply(lib, s, items, isError, now, id).sent == OnReply(lib, t, items, isError, now, id).sent
  {
    hide AdvanceMotion;
    hide AdvanceButton;
    hide Finished;
    if Awaited(s.c, items) {
      var result := Item(items, 2);
      if isError {
        FinishedAgrees(s, t, now, id);
      } else if ReplyEnds(s.c, result) {
        AdvanceEndsAgree(lib, s, t, result, now, id);
      } else if s.c.chain == MotionChain {
        MotionAgrees(lib, s, t, result, now, id);
      } else {
        ButtonAgrees(s, t, result, now, id);
      }
    }
  }

  lemma OnCallOnControl(s: State, t: State, items: seq<Json>)
    requires s.c == t.c && CallAccepted(s.c.hs, items)
    ensures var o, p := OnCall(s, items), OnCall(t, items);
            && o.sent == p.sent && o.s.c == p.s.c && o.s.d == s.d && p.s.d == t.d
            && o.s.c.chain == s.c.chain && o.s.c.step == s.c.step && o.s.c.pendingMotion == s.c.pendingMotion
  {
    hide Resolve;
    hide Field;
    hide KnownClient;
    hide Take;
  }

  lemma OnCallAgrees(s: State, t: State, items: seq<Json>)
    requires Agree(s, t) && CallAccepted(s.c.hs, items)
    ensures Agree(OnCall(s, items).s, OnCall(t, items).s) && OnCall(s, items).sent == OnCall(t, items).sent
  {
    hide OnCall;
    OnCallOnControl(s, t, items);
    AgreeStays(s, t, OnCall(s, items).s, OnCall(t, items).s);
  }

  lemma OnDeviceAgrees(s: State, t: State, ev: Event, now: int, id: string)
    requires Consistent(s) && Consistent(t) && Agree(s, t)
    ensures Agree(OnDevice(s, ev, now, id).s, OnDevice(t, ev, now, id).s)
    ensures OnDevice(s, ev, now, id).sent == OnDevice(t, ev, now, id).sent
  {
  }

  lemma OnMessageAgrees(lib: Libm, s: State, t: State, json: Option<Json>, now: int, id: string)
    requires Consistent(s) && Consistent(t) && Agree(s, t)
    ensures Agree(OnMessage(lib, s, json, now, id).s, OnMessage(lib, t, json, now, id).s)
    ensures OnMessage(lib, s, json, now, id).sent == OnMessage(lib, t, json, now, id).sent
  {
    hide OnReply;
    hide OnCall;
    hide Resolve;
    hide CallAccepted;
    hide Agree;
    if Accepts(s.c.hs, json) {
      var items, kind := json.value.items, Kind(json);
      AgreeControl(s, t);
      if kind == WAMP_CALL {
        OnCallAgrees(s, t, items);
      } else if kind == WAMP_PREFIX {
        AgreeStays(s, t, OnPrefix(s, items), OnPrefix(t, items));
      } else if kind == WAMP_SUBSCRIBE {
        AgreeStays(s, t, OnSubscribe(s, items), OnSubscribe(t, items));
      } else if kind == WAMP_CALLRESULT || kind == WAMP_CALLERROR {
        ReplyAgrees(lib, s, t, items, kind == WAMP_CALLERROR, now, id);
      }
    } else {
      AgreeControl(s, t);
    }
  }

  lemma AgreeControl(s: State, t: State)
    requires Agree(s, t)
    ensures s.c == t.c
  {
  }

  lemma NextAgrees(lib: Libm, s: State, t: State, i: Input)
    requires Consistent(s) && Consistent(t) && Agree(s, t)
    ensures Agree(Next(lib, s, i).s, Next(lib, t, i).s) && Next(lib, s, i).sent == Next(lib, t, i).sent
  {
    hide OnMessage;
    hide OnDevice;
    match i
    case Device(ev, now, id) => OnDeviceAgrees(s, t, ev, now, id);
    case Sensitivity(x) => AgreeStays(s, t, OnSensitivity(s, x), OnSensitivity(t, x));
    case Message(json, now, id) => OnMessageAgrees(lib, s, t, json, now, id);
  }

  /** No stale data: two idle controllers with the same control state but arbitrary leftover numbers and
      events send the same messages on the same inputs, for ever. */
  lemma {:induction false} NoStaleData(lib: Libm, s: State, t: State, inputs: seq<Input>)
    requires Consistent(s) && Consistent(t) && s.c == t.c && s.c.chain == NoChain
    ensures Run(lib, s, inputs).sent == Run(lib, t, inputs).sent
    ensures Agree(Run(lib, s, inputs).s, Run(lib, t, inputs).s)
    decreases |inputs|
  {
    hide Next;
    if inputs != [] {
      var front, i := inputs[..|inputs| - 1], inputs[|inputs| - 1];
      NoStaleData(lib, s, t, front);
      RunConsistent(lib, s, front);
      RunConsistent(lib, t, front);
      NextAgrees(lib, Run(lib, s, front).s, Run(lib, t, front).s, i);
    }
  }
}
