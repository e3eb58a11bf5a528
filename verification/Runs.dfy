/** What holds of the controller over every finite run, whatever the client and the device do. */
module Runs {
  import opened Bytes
  import opened GramSchmidt
  import opened Camera
  import opened Wamp
  import opened Protocol

  // ----- the shape of a chain -----

  predicate IsMotionStep(p: Step) {
    p.MReadExtents? || p.MReadPerspective? || p.MReadAffine? || p.MReadViewExtents? || p.MWriteMotion?
    || p.MWriteViewExtents? || p.MWriteAffine?
  }

  /** Chain, step and perspective fit together, an idle controller has nothing pending, and a chain
      runs only for a client that is ready, recognised and subscribed. */
  ghost predicate Consistent(s: State) {
    && (s.c.chain == NoChain ==> !s.c.pendingMotion && !s.c.pendingButton)
    && (s.c.chain == MotionChain ==> IsMotionStep(s.c.step))
    && (s.c.chain == MotionChain && (s.c.step.MReadViewExtents? || s.c.step.MWriteViewExtents?) ==> !s.d.perspective)
    && (s.c.chain == ButtonChain ==> !IsMotionStep(s.c.step))
    && (s.c.chain != NoChain ==> s.c.hs == Ready && s.c.known && s.c.subscribed)
    && (s.c.chain == MotionChain ==> s.d.active.isMotion)
    && (s.c.pendingMotion ==> s.d.saved.isMotion)
  }

  datatype Call = Call(update: bool, prop: Property)

  const ORTHOGRAPHIC := [Call(false, ModelExtents), Call(false, ViewPerspective), Call(false, ViewAffine),
                         Call(false, ViewExtents), Call(true, MotionFlag), Call(true, ViewExtents),
                         Call(true, ViewAffine)]
  const PERSPECTIVE := [Call(false, ModelExtents), Call(false, ViewPerspective), Call(false, ViewAffine),
                        Call(true, MotionFlag), Call(true, ViewAffine)]
  const RESET := [Call(false, ModelExtents), Call(false, ViewsFront), Call(true, ViewAffine), Call(true, ViewExtents)]

  function Script(s: State): seq<Call> {
    if s.c.chain == ButtonChain then RESET else if s.d.perspective then PERSPECTIVE else ORTHOGRAPHIC
  }

  /** How many calls of its script a running chain has made. */
  function Position(s: State): (n: nat)
    ensures n > 0
  {
    match s.c.step
    case MReadExtents => 1
    case MReadPerspective => 2
    case MReadAffine => 3
    case MReadViewExtents => 4
    case MWriteMotion => if s.d.perspective then 4 else 5
    case MWriteViewExtents => 6
    case MWriteAffine => if s.d.perspective then 5 else 7
    case BReadExtents => 1
    case BReadFront => 2
    case BWriteAffine => 3
    case BWriteExtents => 4
  }

  /** Replies a chain can still take. */
  function Rank(p: Step): (n: nat)
    ensures 1 <= n <= 7
  {
    match p
    case MReadExtents => 7
    case MReadPerspective => 6
    case MReadAffine => 5
    case MReadViewExtents => 4
    case MWriteMotion => 3
    case MWriteViewExtents => 2
    case MWriteAffine => 1
    case BReadExtents => 4
    case BReadFront => 3
    case BWriteAffine => 2
    case BWriteExtents => 1
  }

  function Calls(sent: seq<Sent>): seq<Call> {
    if sent == [] then []
    else
      var x := sent[|sent| - 1];
      Calls(sent[..|sent| - 1]) + (if x.Rpc? then [Call(x.update, x.prop)] else [])
  }

  lemma {:induction false} CallsConcat(a: seq<Sent>, b: seq<Sent>)
    ensures Calls(a + b) == Calls(a) + Calls(b)
  {
    if b == [] {
      assert a + b == a;
    } else {
      assert (a + b)[..|a + b| - 1] == a + b[..|b| - 1];
      CallsConcat(a, b[..|b| - 1]);
    }
  }

  lemma CallsOfOne(x: Sent)
    ensures Calls([x]) == if x.Rpc? then [Call(x.update, x.prop)] else []
  {
  }

  // ----- one step -----

  /** Nothing asked; the chain, if any, stays where it was. */
  ghost predicate Waits(s: State, o: Out) {
    && Calls(o.sent) == [] && o.s.c.chain == s.c.chain
    && (s.c.chain != NoChain ==> SameChain(s, o.s) && o.s.c.step == s.c.step && o.s.c.callId == s.c.callId
                                 && o.s.d.perspective == s.d.perspective)
  }

  ghost predicate SameChain(s: State, t: State) {
    t.c.chain == s.c.chain && t.c.started == s.c.started && t.d.active == s.d.active
  }

  ghost predicate Ends(o: Out) {
    Calls(o.sent) == [] && o.s.c.chain == NoChain
  }

  /** The next call of the same script, after one of its replies. */
  ghost predicate Advances(s: State, o: Out) {
    && s.c.chain != NoChain && SameChain(s, o.s)
    && Position(o.s) == Position(s) + 1 && Rank(o.s.c.step) < Rank(s.c.step)
    && Position(o.s) <= |Script(o.s)| && Position(s) <= |Script(s)|
    && Script(o.s)[..Position(s)] == Script(s)[..Position(s)]
    && Calls(o.sent) == [Script(o.s)[Position(s)]]
  }

  ghost predicate Starts(o: Out, now: int, id: string) {
    && o.s.c.chain != NoChain && Position(o.s) == 1 && o.s.c.started == now && o.s.c.callId == id
    && Rank(o.s.c.step) == (if o.s.c.chain == MotionChain then 7 else 4)
    && Calls(o.sent) == [Script(o.s)[0]] && !o.s.c.pendingButton && !o.s.c.pendingMotion
  }

  lemma FinishedShape(s: State, now: int, id: string)
    requires Consistent(s) && s.c.chain != NoChain
    ensures Consistent(Finished(s, now, id).s)
    ensures if s.c.pendingButton || s.c.pendingMotion then Starts(Finished(s, now, id), now, id)
            else Ends(Finished(s, now, id))
  {
  }

  /** A reply decides the end of the chain before the controller looks at the queue. */
  predicate ReplyEnds(c: Control, result: Option<Json>) {
    match c.step
    case MReadExtents => !Carries(result, 6)
    case MReadAffine => !Carries(result, 16)
    case MReadViewExtents => !Carries(result, 6)
    case BReadExtents => !Carries(result, 6)
    case MWriteAffine => true
    case BWriteExtents => true
    case _ => false
  }

  /** The state a failing read leaves behind: only the buffer it was filling has changed. */
  function EndingState(s: State, result: Option<Json>): State {
    match s.c.step
    case MReadExtents => s.(d := s.d.(extents := Overwrite(s.d.extents, result)))
    case BReadExtents => s.(d := s.d.(extents := Overwrite(s.d.extents, result)))
    case MReadAffine => s.(d := s.d.(curr := Overwrite(s.d.curr, result)))
    case MReadViewExtents => s.(d := s.d.(viewExtents := Overwrite(s.d.viewExtents, result)))
    case _ => s
  }

  lemma EndingKeeps(s: State, result: Option<Json>)
    ensures var t := EndingState(s, result);
            t.c == s.c && t.d.saved == s.d.saved && t.d.active == s.d.active && t.d.perspective == s.d.perspective
  {
  }

  lemma AdvanceEnds(lib: Libm, s: State, result: Option<Json>, now: int, id: string)
    requires Consistent(s) && s.c.chain != NoChain && ReplyEnds(s.c, result)
    ensures Advance(lib, s, result, now, id) == Finished(EndingState(s, result), now, id)
  {
  }

  /** What a reply that does not end the chain leaves alone. */
  ghost predicate OnlyAsked(s: State, o: Out, id: string) {
    && o.s.c == s.c.(step := o.s.c.step, callId := id)
    && o.s.d.saved == s.d.saved && o.s.d.active == s.d.active
    && |o.sent| == 1 && o.sent[0].Rpc? && o.sent[0].callId == id
  }

  /** The next call of its script: what a reply that does not end the chain leads to. */
  ghost predicate AsksNext(s: State, o: Out, result: Option<Json>, id: string) {
    && OnlyAsked(s, o, id) && Consistent(o.s)
    && o.s.d.perspective == (if s.c.step.MReadPerspective? then TrueOrNonzero(result) else s.d.perspective)
    && Position(o.s) == Position(s) + 1 && Rank(o.s.c.step) < Rank(s.c.step) && Position(o.s) <= |Script(o.s)|
    && Call(o.sent[0].update, o.sent[0].prop) == Script(o.s)[Position(s)]
  }

  lemma MotionReads(lib: Libm, s: State, result: Option<Json>, now: int, id: string)
    requires Consistent(s) && s.c.chain == MotionChain && !ReplyEnds(s.c, result)
    requires s.c.step in {MReadExtents, MReadPerspective, MReadAffine, MReadViewExtents}
    ensures AsksNext(s, AdvanceMotion(lib, s, result, now, id), result, id)
  {
    hide NewAffine;
    hide Overwrite;
    hide Carries;
    hide Scaled;
    hide Zoom;
    hide Finished;
  }

  lemma MotionWrites(lib: Libm, s: State, result: Option<Json>, now: int, id: string)
    requires Consistent(s) && s.c.chain == MotionChain && !ReplyEnds(s.c, result)
    requires s.c.step in {MWriteMotion, MWriteViewExtents}
    ensures AsksNext(s, AdvanceMotion(lib, s, result, now, id), result, id)
  {
    hide Numbers;
    hide NewAffine;
    hide Overwrite;
    hide Finished;
  }

  lemma MotionAsks(lib: Libm, s: State, result: Option<Json>, now: int, id: string)
    requires Consistent(s) && s.c.chain == MotionChain && !ReplyEnds(s.c, result)
    ensures AsksNext(s, AdvanceMotion(lib, s, result, now, id), result, id)
  {
    hide AdvanceMotion;
    hide AsksNext;
    hide Carries;
    if s.c.step in {MWriteMotion, MWriteViewExtents} {
      MotionWrites(lib, s, result, now, id);
    } else {
      MotionReads(lib, s, result, now, id);
    }
  }

  lemma ButtonAsks(s: State, result: Option<Json>, now: int, id: string)
    requires Consistent(s) && s.c.chain == ButtonChain && !ReplyEnds(s.c, result)
    ensures AsksNext(s, AdvanceButton(s, result, now, id), result, id)
  {
    hide Overwrite;
    hide Carries;
    hide Numbers;
    hide Scaled;
    hide TrueOrNonzero;
    hide Finished;
  }

  /** The two motion scripts part only after their third call. */
  lemma ScriptsAgree(s: State, t: State)
    requires s.c.chain == t.c.chain != NoChain && Position(s) <= |Script(t)|
    requires s.d.perspective == t.d.perspective || Position(s) <= 3
    ensures Position(s) <= |Script(s)| && Script(t)[..Position(s)] == Script(s)[..Position(s)]
  {
  }

  /** Each awaited reply either ends the chain or makes the next call of its script; the catch-all
      branches of the two switches are never taken. */
  lemma AdvanceShape(lib: Libm, s: State, result: Option<Json>, now: int, id: string)
    requires Consistent(s) && s.c.chain != NoChain
    ensures ReplyEnds(s.c, result) ==> Advance(lib, s, result, now, id) == Finished(EndingState(s, result), now, id)
    ensures !ReplyEnds(s.c, result) ==>
              Advances(s, Advance(lib, s, result, now, id)) && AsksNext(s, Advance(lib, s, result, now, id), result, id)
    ensures Consistent(Advance(lib, s, result, now, id).s)
  {
    hide AdvanceMotion;
    hide AdvanceButton;
    if ReplyEnds(s.c, result) {
      AdvanceEnds(lib, s, result, now, id);
      EndingKeeps(s, result);
      FinishedShape(EndingState(s, result), now, id);
    } else {
      var o := Advance(lib, s, result, now, id);
      if s.c.chain == MotionChain { MotionAsks(lib, s, result, now, id); } else { ButtonAsks(s, result, now, id); }
      ScriptsAgree(s, o.s);
      CallsOfOne(o.sent[0]);
    }
  }
}
