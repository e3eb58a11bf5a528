/** Laws of whole runs of the controller: the RPC grammar, coalescing, and the bound on calls. */
module RunLaws {
  import opened Bytes
  import opened GramSchmidt
  import opened Wamp
  import opened Protocol
  import opened Runs

  function NowOf(i: Input): int {
    match i case Message(_, now, _) => now case Device(_, now, _) => now case Sensitivity(_) => 0
  }

  function IdOf(i: Input): string {
    match i case Message(_, _, id) => id case Device(_, _, id) => id case Sensitivity(_) => ""
  }

  ghost predicate Shape(s: State, o: Out, now: int, id: string) {
    Waits(s, o) || Ends(o) || Advances(s, o) || Starts(o, now, id)
  }

  lemma ReplyShape(lib: Libm, s: State, items: seq<Json>, isError: bool, now: int, id: string)
    requires Consistent(s)
    ensures Consistent(OnReply(lib, s, items, isError, now, id).s)
    ensures Shape(s, OnReply(lib, s, items, isError, now, id), now, id)
  {
    hide Advance;
    hide Finished;
    if Awaited(s.c, items) {
      if isError {
        FinishedShape(s, now, id);
      } else {
        var result := Item(items, 2);
        AdvanceShape(lib, s, result, now, id);
        if ReplyEnds(s.c, result) {
          EndingKeeps(s, result);
          FinishedShape(EndingState(s, result), now, id);
        }
      }
    }
  }

  lemma OnCallShape(s: State, items: seq<Json>)
    requires Consistent(s) && CallAccepted(s.c.hs, items)
    ensures Consistent(OnCall(s, items).s) && Waits(s, OnCall(s, items))
  {
    hide Resolve;
    hide Field;
    hide KnownClient;
    hide Take;
    CallsOfOne(OnCall(s, items).sent[0]);
  }

  lemma MessageShape(lib: Libm, s: State, json: Option<Json>, now: int, id: string)
    requires Consistent(s)
    ensures Consistent(OnMessage(lib, s, json, now, id).s)
    ensures Shape(s, OnMessage(lib, s, json, now, id), now, id)
  {
    hide OnReply;
    hide OnCall;
    hide Resolve;
    if Accepts(s.c.hs, json) {
      var items, kind := json.value.items, Kind(json);
      if kind == WAMP_CALL { OnCallShape(s, items); }
      if kind == WAMP_CALLRESULT || kind == WAMP_CALLERROR {
        ReplyShape(lib, s, items, kind == WAMP_CALLERROR, now, id);
      }
    }
  }

  lemma DeviceShape(s: State, ev: Event, now: int, id: string)
    requires Consistent(s)
    ensures Consistent(OnDevice(s, ev, now, id).s)
    ensures Shape(s, OnDevice(s, ev, now, id), now, id)
  {
    CallsOfOne(Rpc(id, false, ModelExtents, None));
  }

  lemma NextShape(lib: Libm, s: State, i: Input)
    requires Consistent(s)
    ensures Consistent(Next(lib, s, i).s) && Shape(s, Next(lib, s, i), NowOf(i), IdOf(i))
  {
    hide OnMessage;
    hide OnDevice;
    match i
    case Message(json, now, id) => MessageShape(lib, s, json, now, id);
    case Device(ev, now, id) => DeviceShape(s, ev, now, id);
    case Sensitivity(_) =>
  }

  lemma {:induction false} RunConsistent(lib: Libm, s: State, inputs: seq<Input>)
    requires Consistent(s)
    ensures Consistent(Run(lib, s, inputs).s)
  {
    hide Next;
    if inputs != [] {
      RunConsistent(lib, s, inputs[..|inputs| - 1]);
      NextShape(lib, Run(lib, s, inputs[..|inputs| - 1]).s, inputs[|inputs| - 1]);
    }
  }

  // ----- coalescing: one flag pair and one saved event against an unbounded list -----

  /** The books of a run: every event the gates let through, the events that started a chain, those
      waiting behind the running chain, and those that were overtaken. */
  datatype Ledger = Ledger(accepted: seq<Event>, started: seq<Event>, queue: seq<Event>, superseded: seq<Event>)

  const EMPTY := Ledger([], [], [], [])

  predicate HasButton(q: seq<Event>) {
    exists k :: 0 <= k < |q| && !q[k].isMotion
  }

  predicate HasMotion(q: seq<Event>) {
    exists k :: 0 <= k < |q| && q[k].isMotion
  }

  /** The position of the last event of a kind. */
  function LastOf(q: seq<Event>, motion: bool): (k: nat)
    requires if motion then HasMotion(q) else HasButton(q)
    ensures k < |q| && q[k].isMotion == motion && forall j :: k < j < |q| ==> q[j].isMotion != motion
  {
    LastBefore(q, |q|, motion)
  }

  function LastBefore(q: seq<Event>, n: nat, motion: bool): (k: nat)
    requires n <= |q| && exists k :: 0 <= k < n && q[k].isMotion == motion
    ensures k < n && q[k].isMotion == motion && forall j :: k < j < n ==> q[j].isMotion != motion
  {
    if q[n - 1].isMotion == motion then n - 1 else LastBefore(q, n - 1, motion)
  }

  lemma SomeKind(q: seq<Event>)
    requires q != []
    ensures HasButton(q) || HasMotion(q)
  {
    assert q[0].isMotion || !q[0].isMotion;
  }

  /** The policy: when a chain ends by itself, a waiting button goes first and everything else that
      waited is dropped; otherwise the latest motion goes, and the earlier ones are dropped. */
  function Choice(q: seq<Event>): (k: nat)
    requires q != []
    ensures k < |q| && (HasButton(q) <==> !q[k].isMotion)
  {
    SomeKind(q);
    if HasButton(q) then LastOf(q, false) else LastOf(q, true)
  }

  function Without(q: seq<Event>, k: nat): seq<Event>
    requires k < |q|
  {
    q[..k] + q[k + 1..]
  }

  function Settle(l: Ledger): Ledger {
    if l.queue == [] then l
    else
      Ledger(l.accepted, l.started + [l.queue[Choice(l.queue)]], [], l.superseded + Without(l.queue, Choice(l.queue)))
  }

  /** An awaited reply that ends the chain: an error, unusable data, or the last reply of the script. */
  predicate EndsChain(s: State, json: Option<Json>) {
    && WellFormed(json) && Awaited(s.c, json.value.items)
    && (Kind(json) == 4 || (Kind(json) == 3 && ReplyEnds(s.c, Item(json.value.items, 2))))
  }

  function BookDevice(c: Control, l: Ledger, ev: Event, now: int): Ledger {
    if !(c.hs == Ready && c.known && c.subscribed && c.focus) then l
    else if c.chain != NoChain && !TimedOut(c, now) then
      l.(accepted := l.accepted + [ev], queue := l.queue + [ev])
    else
      Ledger(l.accepted + [ev], l.started + [ev], [], l.superseded + l.queue)
  }

  function Booked(s: State, l: Ledger, i: Input): Ledger {
    match i
    case Device(ev, now, _) => BookDevice(s.c, l, ev, now)
    case Message(json, _, _) => if EndsChain(s, json) then Settle(l) else l
    case Sensitivity(_) => l
  }

  /** The books of a run that starts in state s0 with nothing accepted yet. */
  function Books(lib: Libm, s0: State, inputs: seq<Input>): Ledger {
    if inputs == [] then EMPTY
    else Booked(Run(lib, s0, inputs[..|inputs| - 1]).s, Books(lib, s0, inputs[..|inputs| - 1]), inputs[|inputs| - 1])
  }

  /** The controller's flags, saved event and active event are a view of the books. */
  ghost predicate Mirrors(s: State, l: Ledger) {
    && (s.c.chain == NoChain ==> l.queue == [])
    && (s.c.pendingButton <==> HasButton(l.queue))
    && (s.c.pendingMotion <==> HasMotion(l.queue))
    && (s.c.pendingMotion ==> s.d.saved == l.queue[LastOf(l.queue, true)])
    && (s.c.chain != NoChain ==> l.started != [] && l.started[|l.started| - 1].isMotion == (s.c.chain == MotionChain))
    && (s.c.chain == MotionChain ==> s.d.active == l.started[|l.started| - 1])
  }

  lemma QueueSnoc(q: seq<Event>, ev: Event)
    ensures HasButton(q + [ev]) <==> HasButton(q) || !ev.isMotion
    ensures HasMotion(q + [ev]) <==> HasMotion(q) || ev.isMotion
    ensures HasMotion(q + [ev]) ==>
              (q + [ev])[LastOf(q + [ev], true)] == if ev.isMotion then ev else q[LastOf(q, true)]
  {
    var r := q + [ev];
    assert r[|q|] == ev && r[..|q|] == q;
    forall k | 0 <= k < |q| ensures r[k] == q[k] { }
    if HasButton(q) { var k :| 0 <= k < |q| && !q[k].isMotion; assert !r[k].isMotion; }
    if HasMotion(q) { var k :| 0 <= k < |q| && q[k].isMotion; assert r[k].isMotion; }
  }

  lemma DeviceMirrors(s: State, l: Ledger, ev: Event, now: int, id: string)
    requires Consistent(s) && Mirrors(s, l)
    ensures Mirrors(OnDevice(s, ev, now, id).s, Booked(s, l, Device(ev, now, id)))
  {
    QueueSnoc(l.queue, ev);
  }

  lemma FinishedMirrors(s: State, l: Ledger, now: int, id: string)
    requires Consistent(s) && s.c.chain != NoChain && Mirrors(s, l)
    ensures Mirrors(Finished(s, now, id).s, Settle(l))
  {
  }

  lemma ReplyMirrors(lib: Libm, s: State, l: Ledger, items: seq<Json>, isError: bool, now: int, id: string)
    requires Consistent(s) && Mirrors(s, l)
    ensures var ends := Awaited(s.c, items) && (isError || ReplyEnds(s.c, Item(items, 2)));
            Mirrors(OnReply(lib, s, items, isError, now, id).s, if ends then Settle(l) else l)
  {
    hide Advance;
    hide Finished;
    hide Settle;
    if Awaited(s.c, items) {
      var result := Item(items, 2);
      if isError {
        FinishedMirrors(s, l, now, id);
      } else {
        AdvanceShape(lib, s, result, now, id);
        if ReplyEnds(s.c, result) {
          EndingKeeps(s, result);
          FinishedMirrors(EndingState(s, result), l, now, id);
        }
      }
    }
  }

  lemma OnCallMirrors(s: State, l: Ledger, items: seq<Json>)
    requires Consistent(s) && Mirrors(s, l) && CallAccepted(s.c.hs, items)
    ensures Mirrors(OnCall(s, items).s, l)
  {
  }

  lemma NextMirrors(lib: Libm, s: State, l: Ledger, i: Input)
    requires Consistent(s) && Mirrors(s, l)
    ensures Mirrors(Next(lib, s, i).s, Booked(s, l, i))
  {
    hide OnReply;
    hide OnDevice;
    hide OnCall;
    hide Settle;
    hide Resolve;
    match i
    case Device(ev, now, id) => DeviceMirrors(s, l, ev, now, id);
    case Sensitivity(_) =>
    case Message(json, now, id) =>
      if Accepts(s.c.hs, json) {
        var items, kind := json.value.items, Kind(json);
        if kind == WAMP_CALL { OnCallMirrors(s, l, items); }
        if kind == WAMP_CALLRESULT || kind == WAMP_CALLERROR {
          ReplyMirrors(lib, s, l, items, kind == WAMP_CALLERROR, now, id);
        }
      }
  }

  /** Nothing is lost or counted twice: each accepted event is started, waiting, or superseded. */
  ghost predicate Balanced(l: Ledger) {
    multiset(l.accepted) == multiset(l.started) + multiset(l.queue) + multiset(l.superseded)
  }

  lemma SettleBalances(l: Ledger)
    requires Balanced(l)
    ensures Balanced(Settle(l))
  {
    if l.queue != [] {
      var q, k := l.queue, Choice(l.queue);
      assert q == q[..k] + [q[k]] + q[k + 1..];
    }
  }

  lemma BookedBalances(s: State, l: Ledger, i: Input)
    requires Balanced(l)
    ensures Balanced(Booked(s, l, i))
  {
    hide Settle;
    SettleBalances(l);
  }

  /** Coalescing refines the unbounded list over every run, and the list is exactly accounted for. */
  lemma {:induction false} CoalescingRefines(lib: Libm, s0: State, inputs: seq<Input>)
    requires Consistent(s0) && s0.c.chain == NoChain
    ensures Consistent(Run(lib, s0, inputs).s)
    ensures Mirrors(Run(lib, s0, inputs).s, Books(lib, s0, inputs))
    ensures Balanced(Books(lib, s0, inputs))
    decreases |inputs|
  {
    hide Next;
    hide Booked;
    if inputs != [] {
      var front, i := inputs[..|inputs| - 1], inputs[|inputs| - 1];
      CoalescingRefines(lib, s0, front);
      var s, l := Run(lib, s0, front).s, Books(lib, s0, front);
      NextShape(lib, s, i);
      NextMirrors(lib, s, l, i);
      BookedBalances(s, l, i);
    }
  }

  // ----- what the client says about its camera -----

  predicate IsAwaitedResult(c: Control, json: Option<Json>) {
    WellFormed(json) && Kind(json) == 3 && Awaited(c, json.value.items)
  }

  /** The reply to a motion chain's read of view.perspective. */
  predicate AnswersCamera(s: State, i: Input) {
    && i.Message? && IsAwaitedResult(s.c, i.json)
    && s.c.chain == MotionChain && s.c.step == MReadPerspective
  }

  /** One more input: a chain that starts has no answer yet, and an answer belongs to the last chain started. */
  function Noting(s: State, l: Ledger, i: Input, cameras: seq<Option<Json>>): seq<Option<Json>> {
    if Booked(s, l, i).started != l.started then cameras + [None]
    else if AnswersCamera(s, i) && cameras != [] then
      cameras[..|cameras| - 1] + [Item(i.json.value.items, 2)]
    else cameras
  }

  /** For each event that started a chain, what the client answered to that chain's read of view.perspective. */
  function Cameras(lib: Libm, s0: State, inputs: seq<Input>): seq<Option<Json>> {
    if inputs == [] then []
    else
      var front := inputs[..|inputs| - 1];
      Noting(Run(lib, s0, front).s, Books(lib, s0, front), inputs[|inputs| - 1], Cameras(lib, s0, front))
  }

  /** Past its second call, a motion chain's flag is the answer to that call. */
  ghost predicate FlagIs(s: State, camera: Option<Json>) {
    s.c.chain == MotionChain && Position(s) > 2 ==> s.d.perspective == TrueOrNonzero(camera)
  }

  /** Where a motion chain's flag comes from: the answer, if this input is one, or else the flag before. */
  ghost predicate FlagFrom(s: State, t: State, answered: bool, result: Option<Json>) {
    t.c.chain == MotionChain && Position(t) > 2 ==>
      && s.c.chain == MotionChain
      && if answered then t.d.perspective == TrueOrNonzero(result)
         else Position(s) > 2 && t.d.perspective == s.d.perspective
  }

  lemma FinishedFlag(s: State, now: int, id: string)
    ensures var t := Finished(s, now, id).s;
            t.c.chain == MotionChain ==> Position(t) == 1
  {
  }

  lemma ReplyFlag(lib: Libm, s: State, items: seq<Json>, isError: bool, now: int, id: string)
    requires Consistent(s)
    ensures var answered := Awaited(s.c, items) && !isError && s.c.chain == MotionChain && s.c.step.MReadPerspective?;
            FlagFrom(s, OnReply(lib, s, items, isError, now, id).s, answered, Item(items, 2))
  {
    hide Advance;
    hide Finished;
    hide Script;
    hide TrueOrNonzero;
    if Awaited(s.c, items) {
      if isError {
        FinishedFlag(s, now, id);
      } else {
        var result := Item(items, 2);
        AdvanceShape(lib, s, result, now, id);
        if ReplyEnds(s.c, result) { FinishedFlag(EndingState(s, result), now, id); }
      }
    }
  }

  lemma NextFlag(lib: Libm, s: State, i: Input)
    requires Consistent(s)
    ensures FlagFrom(s, Next(lib, s, i).s, AnswersCamera(s, i),
                     if AnswersCamera(s, i) then Item(i.json.value.items, 2) else None)
  {
    hide OnReply;
    hide OnCall;
    hide Resolve;
    hide TrueOrNonzero;
    match i
    case Device(ev, now, id) =>
    case Sensitivity(_) =>
    case Message(json, now, id) =>
      if Accepts(s.c.hs, json) {
        var items, kind := json.value.items, Kind(json);
        if kind == WAMP_CALL { OnCallShape(s, items); }
        if kind == WAMP_CALLRESULT || kind == WAMP_CALLERROR {
          ReplyFlag(lib, s, items, kind == WAMP_CALLERROR, now, id);
        }
      }
  }

  /** An answer about the camera does not end or start a chain. */
  lemma AnswerAdvances(lib: Libm, s: State, i: Input)
    requires Consistent(s) && AnswersCamera(s, i)
    ensures !Waits(s, Next(lib, s, i)) && !Ends(Next(lib, s, i))
  {
    hide Advance;
    hide Position;
    hide Script;
    AdvanceShape(lib, s, Item(i.json.value.items, 2), i.now, i.id);
  }

  // ----- the grammar of the RPCs sent -----

  /** The calls that an event that was started has led to: a nonempty prefix of the script of its kind. Of the
      two motion scripts it is the one that the client's answer about its camera selects. */
  ghost predicate Segment(seg: seq<Call>, e: Event, camera: Option<Json>) {
    && seg != []
    && if !e.isMotion then seg <= RESET
       else if TrueOrNonzero(camera) then seg <= PERSPECTIVE
       else seg <= ORTHOGRAPHIC
  }

  /** The calls are the segments of the events started, one each and in order, and a running chain is at its
      recorded position in the last one. */
  ghost predicate Segmented(segs: seq<seq<Call>>, calls: seq<Call>, s: State, started: seq<Event>,
                            cameras: seq<Option<Json>>)
  {
    && Concat(segs) == calls && |segs| == |started| == |cameras|
    && (forall k :: 0 <= k < |segs| ==> Segment(segs[k], started[k], cameras[k]))
    && (s.c.chain != NoChain ==>
          && segs != [] && Position(s) <= |Script(s)| && segs[|segs| - 1] == Script(s)[..Position(s)]
          && FlagIs(s, cameras[|cameras| - 1]))
  }

  lemma SegmentGrows(segs: seq<seq<Call>>, calls: seq<Call>, s: State, o: Out, started: seq<Event>,
                     cameras: seq<Option<Json>>, camera: Option<Json>)
    requires Segmented(segs, calls, s, started, cameras) && Advances(s, o)
    requires started != [] && started[|started| - 1].isMotion == (s.c.chain == MotionChain) && FlagIs(o.s, camera)
    ensures Segmented(segs[..|segs| - 1] + [Script(o.s)[..Position(o.s)]], calls + Calls(o.sent), o.s, started,
                      cameras[..|cameras| - 1] + [camera])
  {
    hide Segment;
    hide Script;
    hide Position;
    hide FlagIs;
    var front := segs[..|segs| - 1];
    var last, seg := segs[|segs| - 1], Script(o.s)[..Position(o.s)];
    assert segs == front + [last];
    ConcatSnoc(front, last);
    ConcatSnoc(front, seg);
    assert seg == last + Calls(o.sent);
    Associates(Concat(front), last, Calls(o.sent));
    PrefixIsSegment(o.s, started[|started| - 1], camera);
  }

  lemma PrefixIsSegment(s: State, e: Event, camera: Option<Json>)
    requires Position(s) <= |Script(s)| && s.c.chain != NoChain && e.isMotion == (s.c.chain == MotionChain)
    requires FlagIs(s, camera)
    ensures Segment(Script(s)[..Position(s)], e, camera)
  {
    hide Position;
    hide TrueOrNonzero;
  }

  lemma SegmentStarts(segs: seq<seq<Call>>, calls: seq<Call>, s: State, o: Out, now: int, id: string,
                      started: seq<Event>, e: Event, cameras: seq<Option<Json>>)
    requires Segmented(segs, calls, s, started, cameras) && Starts(o, now, id)
    requires e.isMotion == (o.s.c.chain == MotionChain)
    ensures Segmented(segs + [Calls(o.sent)], calls + Calls(o.sent), o.s, started + [e], cameras + [None])
  {
    ConcatSnoc(segs, Calls(o.sent));
    assert Calls(o.sent) == Script(o.s)[..1];
    assert Segment(Calls(o.sent), e, None);
  }

  lemma SegmentStays(segs: seq<seq<Call>>, calls: seq<Call>, s: State, o: Out, started: seq<Event>,
                     cameras: seq<Option<Json>>)
    requires Segmented(segs, calls, s, started, cameras) && (Waits(s, o) || Ends(o))
    ensures Segmented(segs, calls + Calls(o.sent), o.s, started, cameras)
  {
    assert calls + [] == calls;
  }

  /** The answer noted last is the flag of a chain that goes on. */
  lemma NotingKeepsFlag(lib: Libm, s: State, i: Input, l: Ledger, cameras: seq<Option<Json>>)
    requires Consistent(s) && cameras != [] && FlagIs(s, cameras[|cameras| - 1])
    requires Booked(s, l, i).started == l.started
    ensures var more := Noting(s, l, i, cameras);
            && more == cameras[..|cameras| - 1] + [more[|more| - 1]]
            && FlagIs(Next(lib, s, i).s, more[|more| - 1])
  {
    hide Next;
    hide Booked;
    hide Position;
    hide TrueOrNonzero;
    hide AnswersCamera;
    NextFlag(lib, s, i);
    assert cameras == cameras[..|cameras| - 1] + [cameras[|cameras| - 1]];
  }

  /** One input: whatever it does, the calls stay the segments of the events started. */
  lemma SegmentNext(lib: Libm, s: State, i: Input, l: Ledger, segs: seq<seq<Call>>, calls: seq<Call>,
                    cameras: seq<Option<Json>>)
    returns (more: seq<seq<Call>>)
    requires Consistent(s) && Mirrors(s, l) && Segmented(segs, calls, s, l.started, cameras)
    ensures Segmented(more, calls + Calls(Next(lib, s, i).sent), Next(lib, s, i).s, Booked(s, l, i).started,
                      Noting(s, l, i, cameras))
  {
    hide Next;
    hide Booked;
    hide Script;
    hide Position;
    hide Segmented;
    hide AnswersCamera;
    hide FlagIs;
    var o, k := Next(lib, s, i), Booked(s, l, i);
    NextShape(lib, s, i);
    NextMirrors(lib, s, l, i);
    StartsAreBooked(lib, s, l, i);
    if k.started != l.started {
      var e := k.started[|k.started| - 1];
      assert k.started == l.started + [e];
      SegmentStarts(segs, calls, s, o, NowOf(i), IdOf(i), l.started, e, cameras);
      more := segs + [Calls(o.sent)];
    } else if Waits(s, o) || Ends(o) {
      if AnswersCamera(s, i) { AnswerAdvances(lib, s, i); }
      SegmentStays(segs, calls, s, o, l.started, cameras);
      more := segs;
    } else {
      LastSegment(segs, calls, s, l.started, cameras);
      NotingKeepsFlag(lib, s, i, l, cameras);
      var noted := Noting(s, l, i, cameras);
      SegmentGrows(segs, calls, s, o, l.started, cameras, noted[|noted| - 1]);
      more := segs[..|segs| - 1] + [Script(o.s)[..Position(o.s)]];
    }
  }

  lemma LastSegment(segs: seq<seq<Call>>, calls: seq<Call>, s: State, started: seq<Event>, cameras: seq<Option<Json>>)
    requires Segmented(segs, calls, s, started, cameras) && s.c.chain != NoChain
    ensures segs != [] && started != [] && cameras != [] && FlagIs(s, cameras[|cameras| - 1])
  {
  }

  /** The RPCs of any run are a concatenation of nonempty prefixes of exactly three scripts, one for each
      event that started a chain, in order, of its kind and for the camera that its client answered with; a
      running chain is at its recorded position in the last of them. */
  lemma {:induction false} Grammar(lib: Libm, s0: State, inputs: seq<Input>) returns (segs: seq<seq<Call>>)
    requires Consistent(s0) && s0.c.chain == NoChain
    ensures Segmented(segs, Calls(Run(lib, s0, inputs).sent), Run(lib, s0, inputs).s, Books(lib, s0, inputs).started,
                      Cameras(lib, s0, inputs))
    decreases |inputs|
  {
    hide Next;
    hide Booked;
    hide Mirrors;
    hide Script;
    hide Position;
    hide Noting;
    if inputs == [] {
      return [];
    }
    var front, i := inputs[..|inputs| - 1], inputs[|inputs| - 1];
    segs := Grammar(lib, s0, front);
    CoalescingRefines(lib, s0, front);
    var before := Run(lib, s0, front);
    CallsConcat(before.sent, Next(lib, before.s, i).sent);
    segs := SegmentNext(lib, before.s, i, Books(lib, s0, front), segs, Calls(before.sent), Cameras(lib, s0, front));
  }

  // ----- progress and the amplification bound -----

  /** Calls a running chain may still make. */
  function Owed(s: State): nat {
    if s.c.chain == NoChain then 0 else Rank(s.c.step) - 1
  }

  function Allowance(es: seq<Event>): nat {
    if es == [] then 0 else Allowance(es[..|es| - 1]) + (if es[|es| - 1].isMotion then 7 else 4)
  }

  lemma AllowanceSnoc(es: seq<Event>, e: Event)
    ensures Allowance(es + [e]) == Allowance(es) + (if e.isMotion then 7 else 4)
  {
  }

  /** One step: the calls made plus the calls owed never outgrow what the started events allow. */
  lemma NextWithinAllowance(lib: Libm, s: State, l: Ledger, i: Input)
    requires Consistent(s) && Mirrors(s, l)
    ensures var o, k := Next(lib, s, i), Booked(s, l, i);
            |Calls(o.sent)| + Owed(o.s) + Allowance(l.started) <= Owed(s) + Allowance(k.started)
  {
    var o, k := Next(lib, s, i), Booked(s, l, i);
    NextShape(lib, s, i);
    NextMirrors(lib, s, l, i);
    StartsAreBooked(lib, s, l, i);
    assert k.started != l.started ==> k.started == l.started + [k.started[|k.started| - 1]];
    if k.started != l.started { AllowanceSnoc(l.started, k.started[|k.started| - 1]); }
  }

  /** A chain is started exactly when an event is booked as started. */
  lemma StartsAreBooked(lib: Libm, s: State, l: Ledger, i: Input)
    requires Consistent(s) && Mirrors(s, l)
    ensures var o, k := Next(lib, s, i), Booked(s, l, i);
            && (k.started == l.started || (|k.started| == |l.started| + 1 && k.started[..|l.started|] == l.started))
            && (k.started == l.started ==> Waits(s, o) || Ends(o) || Advances(s, o))
            && (k.started != l.started ==> Starts(o, NowOf(i), IdOf(i)))
  {
    hide OnReply;
    hide OnDevice;
    hide OnCall;
    hide Resolve;
    match i
    case Device(ev, now, id) => DeviceStarts(s, l, ev, now, id);
    case Sensitivity(_) =>
    case Message(json, now, id) =>
      if Accepts(s.c.hs, json) {
        var items, kind := json.value.items, Kind(json);
        if kind == WAMP_CALL { OnCallShape(s, items); }
        if kind == WAMP_CALLRESULT || kind == WAMP_CALLERROR {
          ReplyStarts(lib, s, l, items, kind == WAMP_CALLERROR, now, id);
        }
      }
  }

  lemma DeviceStarts(s: State, l: Ledger, ev: Event, now: int, id: string)
    requires Consistent(s) && Mirrors(s, l)
    ensures var o, k := OnDevice(s, ev, now, id), Booked(s, l, Device(ev, now, id));
            && (k.started == l.started ==> Waits(s, o))
            && (k.started != l.started ==> Starts(o, now, id) && k.started == l.started + [ev])
  {
  }

  lemma ReplyStarts(lib: Libm, s: State, l: Ledger, items: seq<Json>, isError: bool, now: int, id: string)
    requires Consistent(s) && Mirrors(s, l)
    ensures var o := OnReply(lib, s, items, isError, now, id);
            var ends := Awaited(s.c, items) && (isError || ReplyEnds(s.c, Item(items, 2)));
            && (!ends ==> Waits(s, o) || Advances(s, o))
            && (ends ==> if l.queue == [] then Ends(o)
                         else Starts(o, now, id) && |Settle(l).started| == |l.started| + 1)
  {
    hide Advance;
    hide Finished;
    if Awaited(s.c, items) {
      var result := Item(items, 2);
      if l.queue != [] { SomeKind(l.queue); }
      if isError {
        FinishedShape(s, now, id);
      } else {
        AdvanceShape(lib, s, result, now, id);
        if ReplyEnds(s.c, result) {
          EndingKeeps(s, result);
          FinishedShape(EndingState(s, result), now, id);
        }
      }
    }
  }

  /** Over every run the RPCs sent are at most seven per started motion event plus four per started
      button event, even counting what the running chain may still send. */
  lemma {:induction false} AmplificationBound(lib: Libm, s0: State, inputs: seq<Input>)
    requires Consistent(s0) && s0.c.chain == NoChain
    ensures var o := Run(lib, s0, inputs);
            |Calls(o.sent)| + Owed(o.s) <= Allowance(Books(lib, s0, inputs).started)
    decreases |inputs|
  {
    hide Next;
    hide Booked;
    if inputs != [] {
      var front, i := inputs[..|inputs| - 1], inputs[|inputs| - 1];
      AmplificationBound(lib, s0, front);
      CoalescingRefines(lib, s0, front);
      var before := Run(lib, s0, front);
      NextWithinAllowance(lib, before.s, Books(lib, s0, front), i);
      CallsConcat(before.sent, Next(lib, before.s, i).sent);
    }
  }

  function CountKind(es: seq<Event>, motion: bool): nat {
    if es == [] then 0 else CountKind(es[..|es| - 1], motion) + (if es[|es| - 1].isMotion == motion then 1 else 0)
  }

  lemma {:induction false} AllowanceCounts(es: seq<Event>)
    ensures Allowance(es) == 7 * CountKind(es, true) + 4 * CountKind(es, false)
  {
    if es != [] { AllowanceCounts(es[..|es| - 1]); }
  }
}
