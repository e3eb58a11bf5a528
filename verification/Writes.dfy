/** What the controller writes back to the client, in terms of the replies of the current chain only. */
module Writes {
  import opened Bytes
  import opened GramSchmidt
  import opened Camera
  import opened Wamp
  import opened Protocol
  import opened Runs
  import opened RunLaws
  import opened RunSafety

  /** What the client gave in answer to the reads of the current chain, and the sensitivity when it gave it. */
  datatype Replies = Replies(extents: Extents, camera: Option<Json>, view: View, viewSens: real, box: Extents,
                             boxSens: real, front: Option<Json>)

  const NO_REPLIES := Replies(ZEROES6, None, ZEROES16, 0.0, ZEROES6, 0.0, None)

  function Six(result: Option<Json>): Extents
    requires Carries(result, 6)
  {
    seq(6, i requires 0 <= i < 6 => result.value.items[i].r)
  }

  function Sixteen(result: Option<Json>): View
    requires Carries(result, 16)
  {
    seq(16, i requires 0 <= i < 16 => result.value.items[i].r)
  }

  /** Notes an awaited result. */
  function Noted(c: Control, r: Replies, result: Option<Json>): Replies {
    match c.step
    case MReadExtents => if Carries(result, 6) then r.(extents := Six(result)) else r
    case BReadExtents => if Carries(result, 6) then r.(extents := Six(result)) else r
    case MReadPerspective => r.(camera := result)
    case MReadAffine => if Carries(result, 16) then r.(view := Sixteen(result), viewSens := c.sens) else r
    case MReadViewExtents => if Carries(result, 6) then r.(box := Six(result), boxSens := c.sens) else r
    case BReadFront => r.(front := result)
    case _ => r
  }

  function NotedInput(s: State, r: Replies, i: Input): Replies {
    match i
    case Message(json, _, _) => if IsAwaitedResult(s.c, json) then Noted(s.c, r, Item(json.value.items, 2)) else r
    case _ => r
  }

  /** A chain begins whenever the model's extents are asked for. */
  predicate Begins(o: Out) {
    exists k :: 0 <= k < |o.sent| && o.sent[k].Rpc? && o.sent[k].prop == ModelExtents
  }

  /** The notes with the last input's reply, before a chain that it starts clears them. */
  function NotesAt(lib: Libm, s0: State, inputs: seq<Input>): Replies
    requires inputs != []
    decreases |inputs|, 0
  {
    var front, i := inputs[..|inputs| - 1], inputs[|inputs| - 1];
    NotedInput(Run(lib, s0, front).s, Notes(lib, s0, front), i)
  }

  /** The replies to the reads of the chain that runs after the inputs, and to no others. */
  function Notes(lib: Libm, s0: State, inputs: seq<Input>): Replies
    decreases |inputs|, 1
  {
    if inputs == [] || Begins(Next(lib, Run(lib, s0, inputs[..|inputs| - 1]).s, inputs[|inputs| - 1])) then NO_REPLIES
    else NotesAt(lib, s0, inputs)
  }

  /** The controller's numbers, as far as they matter at its step, come from the replies noted. */
  ghost predicate Sourced(lib: Libm, s: State, r: Replies) {
    && (s.c.chain == MotionChain && !s.c.step.MReadExtents? ==> s.d.extents == r.extents)
    && (s.c.chain == ButtonChain && !s.c.step.BReadExtents? ==> s.d.extents == r.extents)
    && FlagIs(s, r.camera)
    && (s.c.chain == MotionChain && HoldsNext(s.c.step) ==>
          s.d.next == NewAffine(lib, r.view, r.extents, s.d.active.axes, r.viewSens))
    && (s.c.chain == MotionChain && HoldsViewExtents(s.c.step) && !s.d.perspective ==>
          s.d.viewExtents == Scaled(r.box, Zoom(s.d.active, r.boxSens)))
  }

  /** The value is the list of these numbers. */
  predicate Lists(value: Option<Json>, xs: seq<real>) {
    && value.Some? && value.value.Arr? && |value.value.items| == |xs|
    && forall i :: 0 <= i < |xs| ==> value.value.items[i] == Num(xs[i])
  }

  /** The value is the list of these numbers, each multiplied. */
  predicate Multiplies(value: Option<Json>, xs: seq<real>, k: real) {
    && value.Some? && value.value.Arr? && |value.value.items| == |xs|
    && forall i :: 0 <= i < |xs| ==> value.value.items[i] == Num(xs[i] * k)
  }

  /** The box of a view, larger or smaller by the event's travel towards the model. */
  predicate Zooms(value: Option<Json>, box: Extents, z: int, sens: real) {
    Multiplies(value, box, 1.0 + z as real * 0.0002 * sens)
  }

  /** What an update may write, in terms of the replies: the new view is computed from the view, extents and
      event of this chain; the box of an orthographic camera is zoomed by the event; a reset forwards the front
      view it was given and a box a fifth larger than the model. */
  ghost predicate UpdateSourced(lib: Libm, s: State, r: Replies, x: Sent)
    requires x.Rpc?
  {
    match x.prop
    case MotionFlag => s.c.chain == MotionChain && x.value == Some(Bool(true))
    case ViewAffine =>
      if s.c.chain == MotionChain then
        Lists(x.value, NewAffine(lib, r.view, r.extents, s.d.active.axes, r.viewSens))
      else s.c.chain == ButtonChain && x.value == r.front
    case ViewExtents =>
      if s.c.chain == MotionChain then
        !TrueOrNonzero(r.camera) && Zooms(x.value, r.box, s.d.active.axes.z, r.boxSens)
      else s.c.chain == ButtonChain && Multiplies(x.value, r.extents, 1.2)
    case _ => false
  }

  ghost predicate WritesSourced(lib: Libm, s: State, r: Replies, sent: seq<Sent>) {
    forall k :: 0 <= k < |sent| && sent[k].Rpc? && sent[k].update ==> UpdateSourced(lib, s, r, sent[k])
  }

  lemma NumbersAre(xs: seq<real>)
    ensures Lists(Some(Numbers(xs)), xs)
  {
  }

  lemma ScaledAre(e: Extents, k: real)
    ensures Multiplies(Some(Numbers(Scaled(e, k))), e, k)
  {
  }

  lemma SixRead(a: Extents, result: Option<Json>)
    requires Carries(result, 6)
    ensures Overwrite(a, result) == Six(result)
  {
    OverwriteReads(a, result);
  }

  lemma SixteenRead(a: View, result: Option<Json>)
    requires Carries(result, 16)
    ensures Overwrite(a, result) == Sixteen(result)
  {
    OverwriteReads(a, result);
  }

  lemma ZoomIs(e: Extents, ev: Event, sens: real)
    ensures Zooms(Some(Numbers(Scaled(e, Zoom(ev, sens)))), e, ev.axes.z, sens)
  {
    ScaledAre(e, Zoom(ev, sens));
  }

  lemma FinishedSourced(lib: Libm, s: State, r: Replies, q: Replies, now: int, id: string)
    ensures Sourced(lib, Finished(s, now, id).s, r) && WritesSourced(lib, s, q, Finished(s, now, id).sent)
  {
  }

  lemma MotionReadsSourced(lib: Libm, s: State, r: Replies, result: Option<Json>, now: int, id: string)
    requires Consistent(s) && s.c.chain == MotionChain && Sourced(lib, s, r) && !ReplyEnds(s.c, result)
    requires s.c.step in {MReadExtents, MReadPerspective, MReadAffine, MReadViewExtents}
    ensures var o, q := AdvanceMotion(lib, s, result, now, id), Noted(s.c, r, result);
            Sourced(lib, o.s, q) && WritesSourced(lib, s, q, o.sent)
  {
    hide NewAffine;
    hide Overwrite;
    hide Carries;
    hide Numbers;
    hide Scaled;
    hide Zoom;
    hide Finished;
    hide Six;
    hide Sixteen;
    hide Lists;
    hide Multiplies;
    if s.c.step.MReadExtents? { SixRead(s.d.extents, result); }
    if s.c.step.MReadAffine? { SixteenRead(s.d.curr, result); }
    if s.c.step.MReadViewExtents? { SixRead(s.d.viewExtents, result); }
  }

  lemma MotionWritesSourced(lib: Libm, s: State, r: Replies, result: Option<Json>, now: int, id: string)
    requires Consistent(s) && s.c.chain == MotionChain && Sourced(lib, s, r)
    requires s.c.step in {MWriteMotion, MWriteViewExtents}
    ensures var o := AdvanceMotion(lib, s, result, now, id);
            Sourced(lib, o.s, r) && WritesSourced(lib, s, r, o.sent)
  {
    hide NewAffine;
    hide Numbers;
    hide Scaled;
    hide Zoom;
    hide Finished;
    hide Lists;
    hide Zooms;
    hide TrueOrNonzero;
    NumbersAre(s.d.next);
    ZoomIs(r.box, s.d.active, r.boxSens);
  }

  lemma MotionSourced(lib: Libm, s: State, r: Replies, result: Option<Json>, now: int, id: string)
    requires Consistent(s) && s.c.chain == MotionChain && Sourced(lib, s, r) && !ReplyEnds(s.c, result)
    ensures var o, q := AdvanceMotion(lib, s, result, now, id), Noted(s.c, r, result);
            Sourced(lib, o.s, q) && WritesSourced(lib, s, q, o.sent)
  {
    hide AdvanceMotion;
    hide Sourced;
    hide WritesSourced;
    hide Carries;
    if s.c.step in {MWriteMotion, MWriteViewExtents} {
      MotionWritesSourced(lib, s, r, result, now, id);
    } else {
      MotionReadsSourced(lib, s, r, result, now, id);
    }
  }

  lemma ButtonSourced(lib: Libm, s: State, r: Replies, result: Option<Json>, now: int, id: string)
    requires Consistent(s) && s.c.chain == ButtonChain && Sourced(lib, s, r) && !ReplyEnds(s.c, result)
    ensures var o, q := AdvanceButton(s, result, now, id), Noted(s.c, r, result);
            Sourced(lib, o.s, q) && WritesSourced(lib, s, q, o.sent)
  {
    hide NewAffine;
    hide Overwrite;
    hide Carries;
    hide Numbers;
    hide Scaled;
    hide Finished;
    hide Six;
    hide Multiplies;
    if s.c.step.BReadExtents? { SixRead(s.d.extents, result); }
    ScaledAre(r.extents, 1.2);
  }

  lemma ReplySourced(lib: Libm, s: State, r: Replies, items: seq<Json>, isError: bool, now: int, id: string)
    requires Consistent(s) && Sourced(lib, s, r)
    ensures var o := OnReply(lib, s, items, isError, now, id);
            var q := if Awaited(s.c, items) && !isError then Noted(s.c, r, Item(items, 2)) else r;
            Sourced(lib, o.s, q) && WritesSourced(lib, s, q, o.sent)
  {
    hide AdvanceMotion;
    hide AdvanceButton;
    hide Finished;
    hide Sourced;
    hide Noted;
    hide NewAffine;
    if Awaited(s.c, items) {
      var result := Item(items, 2);
      var q := Noted(s.c, r, result);
      if isError {
        FinishedSourced(lib, s, r, r, now, id);
      } else if ReplyEnds(s.c, result) {
        AdvanceEnds(lib, s, result, now, id);
        EndingKeeps(s, result);
        FinishedSourced(lib, EndingState(s, result), q, q, now, id);
      } else if s.c.chain == MotionChain {
        MotionSourced(lib, s, r, result, now, id);
      } else {
        ButtonSourced(lib, s, r, result, now, id);
      }
    }
  }

  lemma OtherSourced(lib: Libm, s: State, r: Replies, t: State, sent: seq<Sent>)
    requires Sourced(lib, s, r) && t.d == s.d && t.c.chain == s.c.chain && t.c.step == s.c.step
    requires forall k :: 0 <= k < |sent| ==> !sent[k].Rpc?
    ensures Sourced(lib, t, r) && WritesSourced(lib, s, r, sent)
  {
  }

  lemma DeviceSourced(lib: Libm, s: State, r: Replies, ev: Event, now: int, id: string)
    requires Consistent(s) && Sourced(lib, s, r)
    ensures Sourced(lib, OnDevice(s, ev, now, id).s, r) && WritesSourced(lib, s, r, OnDevice(s, ev, now, id).sent)
  {
    hide NewAffine;
  }

  lemma OnCallKeeps(s: State, items: seq<Json>)
    requires CallAccepted(s.c.hs, items)
    ensures var o := OnCall(s, items);
            && o.s.d == s.d && o.s.c.chain == s.c.chain && o.s.c.step == s.c.step
            && forall k :: 0 <= k < |o.sent| ==> !o.sent[k].Rpc?
  {
    hide Resolve;
    hide Field;
    hide KnownClient;
    hide Take;
  }

  lemma MessageSourced(lib: Libm, s: State, r: Replies, json: Option<Json>, now: int, id: string)
    requires Consistent(s) && Sourced(lib, s, r)
    ensures var o, q := OnMessage(lib, s, json, now, id), NotedInput(s, r, Message(json, now, id));
            Sourced(lib, o.s, q) && WritesSourced(lib, s, q, o.sent)
  {
    hide OnReply;
    hide OnCall;
    hide Resolve;
    hide CallAccepted;
    hide Noted;
    hide Sourced;
    hide WritesSourced;
    if Accepts(s.c.hs, json) {
      var items, kind := json.value.items, Kind(json);
      if kind == WAMP_CALLRESULT || kind == WAMP_CALLERROR {
        ReplySourced(lib, s, r, items, kind == WAMP_CALLERROR, now, id);
      } else {
        if kind == WAMP_CALL { OnCallKeeps(s, items); }
        var o := OnMessage(lib, s, json, now, id);
        OtherSourced(lib, s, r, o.s, o.sent);
      }
    } else {
      OtherSourced(lib, s, r, s, []);
    }
  }

  lemma {:induction false} CallMade(sent: seq<Sent>, k: nat)
    requires k < |sent| && sent[k].Rpc?
    ensures Call(sent[k].update, sent[k].prop) in Calls(sent)
    decreases |sent|
  {
    if k < |sent| - 1 { CallMade(sent[..|sent| - 1], k); }
  }

  /** Of all the calls in the three scripts only the first reads the extents of the model. */
  lemma FirstCallOnly(s: State)
    ensures forall n :: 0 < n < |Script(s)| ==> Script(s)[n].prop != ModelExtents
  {
  }

  lemma {:induction false} CallCame(sent: seq<Sent>, c: Call)
    requires c in Calls(sent)
    ensures exists k :: 0 <= k < |sent| && sent[k].Rpc? && sent[k].prop == c.prop
    decreases |sent|
  {
    var front, x := sent[..|sent| - 1], sent[|sent| - 1];
    if c in Calls(front) {
      CallCame(front, c);
      var k :| 0 <= k < |front| && front[k].Rpc? && front[k].prop == c.prop;
      assert sent[k] == front[k];
    }
  }

  /** The notes are cleared exactly when a chain starts. */
  lemma ClearedAtStarts(lib: Libm, s: State, i: Input)
    requires Consistent(s)
    ensures Begins(Next(lib, s, i)) <==> Starts(Next(lib, s, i), NowOf(i), IdOf(i))
  {
    hide Next;
    hide Consistent;
    var o := Next(lib, s, i);
    NextShape(lib, s, i);
    if Begins(o) {
      var k :| 0 <= k < |o.sent| && o.sent[k].Rpc? && o.sent[k].prop == ModelExtents;
      CallMade(o.sent, k);
      FirstCallOnly(o.s);
    }
    if Starts(o, NowOf(i), IdOf(i)) {
      CallCame(o.sent, Script(o.s)[0]);
    }
  }

  lemma IdleSourced(lib: Libm, s: State, r: Replies)
    requires s.c.chain == NoChain
    ensures Sourced(lib, s, r)
  {
  }

  /** A chain that has only just begun holds nothing that needs a source. */
  lemma BeginsAfresh(lib: Libm, s: State, i: Input)
    requires Consistent(s) && Begins(Next(lib, s, i))
    ensures Sourced(lib, Next(lib, s, i).s, NO_REPLIES)
  {
    hide Next;
    hide NewAffine;
    hide Begins;
    ClearedAtStarts(lib, s, i);
  }

  /** Over every run: whatever is written to the client's view is a function of the event that started
      the current chain, of the replies to that chain's own reads, and of the sensitivity at the read. */
  lemma {:induction false} WritesComeFromReplies(lib: Libm, s0: State, inputs: seq<Input>)
    requires Consistent(s0) && s0.c.chain == NoChain
    ensures Consistent(Run(lib, s0, inputs).s) && Sourced(lib, Run(lib, s0, inputs).s, Notes(lib, s0, inputs))
    ensures inputs != [] ==>
      var before := Run(lib, s0, inputs[..|inputs| - 1]).s;
      WritesSourced(lib, before, NotesAt(lib, s0, inputs), Next(lib, before, inputs[|inputs| - 1]).sent)
    decreases |inputs|
  {
    hide OnMessage;
    hide OnDevice;
    hide NewAffine;
    hide Begins;
    hide Sourced;
    hide WritesSourced;
    if inputs == [] {
      IdleSourced(lib, s0, NO_REPLIES);
    } else {
      var front, i := inputs[..|inputs| - 1], inputs[|inputs| - 1];
      WritesComeFromReplies(lib, s0, front);
      var s, r := Run(lib, s0, front).s, Notes(lib, s0, front);
      NextShape(lib, s, i);
      if Begins(Next(lib, s, i)) { BeginsAfresh(lib, s, i); }
      match i
      case Message(json, now, id) => MessageSourced(lib, s, r, json, now, id);
      case Device(ev, now, id) => DeviceSourced(lib, s, r, ev, now, id);
      case Sensitivity(x) => OtherSourced(lib, s, r, OnSensitivity(s, x), []);
    }
  }

  /** The answer to a running chain's read of the view, with sixteen numbers in it. */
  predicate AnswersView(s: State, i: Input) {
    && i.Message? && IsAwaitedResult(s.c, i.json) && s.c.chain == MotionChain && s.c.step == MReadAffine
    && Carries(Item(i.json.value.items, 2), 16)
  }

  lemma ViewAnswered(lib: Libm, s: State, i: Input)
    requires s.c.chain == MotionChain && AnswersView(s, i)
    ensures Next(lib, s, i).sent == if s.d.perspective then [Rpc(i.id, true, MotionFlag, Some(Bool(true)))]
                                    else [Rpc(i.id, false, ViewExtents, None)]
  {
    hide NewAffine;
    hide Overwrite;
    hide Finished;
  }

  /** Over every run: once the view is read, the controller goes on to announce the motion if the client
      answered this chain's read of view.perspective with true or a number other than zero, and otherwise
      reads the extents of the view. */
  lemma BranchFollowsReply(lib: Libm, s0: State, inputs: seq<Input>, i: Input)
    requires Consistent(s0) && s0.c.chain == NoChain && AnswersView(Run(lib, s0, inputs).s, i)
    ensures Next(lib, Run(lib, s0, inputs).s, i).sent ==
            if TrueOrNonzero(Notes(lib, s0, inputs).camera) then [Rpc(i.id, true, MotionFlag, Some(Bool(true)))]
            else [Rpc(i.id, false, ViewExtents, None)]
  {
    hide Next;
    hide Run;
    hide Notes;
    hide Consistent;
    hide NewAffine;
    WritesComeFromReplies(lib, s0, inputs);
    ViewAnswered(lib, Run(lib, s0, inputs).s, i);
  }
}
