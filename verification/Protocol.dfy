/** The per-connection RPC controller as a state machine: what each input does to the state and what is sent. */
module Protocol {
  import opened Bytes
  import opened GramSchmidt
  import opened Camera
  import opened Wamp

  const CONTROLLER_URI := "wss://127.51.68.120/3dconnexion3dcontroller/controller0"
  const UPDATE_URI := "wss://127.51.68.120/3dconnexion#update"
  const CHAIN_TIMEOUT := 10
  const MAX_PREFIXES: nat := 8
  const DEFAULT_SENSITIVITY := 0.35

  const WAMP_PREFIX := 1
  const WAMP_CALL := 2
  const WAMP_CALLRESULT := 3
  const WAMP_CALLERROR := 4
  const WAMP_SUBSCRIBE := 5

  datatype Stage = WaitMouse | WaitController | Ready
  datatype Chain = NoChain | MotionChain | ButtonChain
  datatype Step =
    | MReadExtents | MReadPerspective | MReadAffine | MReadViewExtents | MWriteMotion | MWriteViewExtents | MWriteAffine
    | BReadExtents | BReadFront | BWriteAffine | BWriteExtents

  datatype Event = Event(isMotion: bool, axes: Motion)

  /** Everything but the numbers read from the client and the two saved events. */
  datatype Control = Control(
    hs: Stage, known: bool, subscribed: bool, focus: bool, sens: real, prefixes: seq<(string, string)>,
    chain: Chain, step: Step, callId: string, started: int, pendingMotion: bool, pendingButton: bool)

  datatype Data = Data(
    active: Event, saved: Event, extents: Extents, perspective: bool, curr: View, next: View, viewExtents: Extents)

  datatype State = State(c: Control, d: Data)

  datatype Out = Out(s: State, sent: seq<Sent>)

  /** The clock and the supply of fresh call ids are inputs. */
  datatype Input =
    | Message(json: Option<Json>, now: int, id: string)
    | Device(ev: Event, now: int, id: string)
    | Sensitivity(value: real)

  const NO_EVENT := Event(true, STILL)
  const ZEROES16: View := [0.0, 0.0, 0.0, 0.0, 0.0, 0.0, 0.0, 0.0, 0.0, 0.0, 0.0, 0.0, 0.0, 0.0, 0.0, 0.0]
  const ZEROES6: Extents := [0.0, 0.0, 0.0, 0.0, 0.0, 0.0]
  const INITIAL := State(
    Control(WaitMouse, false, false, false, DEFAULT_SENSITIVITY, [], NoChain, MReadExtents, "", 0, false, false),
    Data(NO_EVENT, NO_EVENT, ZEROES6, false, ZEROES16, ZEROES16, ZEROES6))

  // ----- chains -----

  /** Moves to a step and sends its RPC under a fresh id. */
  function Ask(s: State, step: Step, update: bool, prop: Property, value: Option<Json>, id: string): Out {
    Out(s.(c := s.c.(step := step, callId := id)), [Rpc(id, update, prop, value)])
  }

  function StartMotion(s: State, ev: Event, now: int, id: string): Out {
    var t := State(s.c.(chain := MotionChain, started := now), s.d.(active := ev));
    Ask(t, MReadExtents, false, ModelExtents, None, id)
  }

  function StartButton(s: State, now: int, id: string): Out {
    Ask(s.(c := s.c.(chain := ButtonChain, started := now)), BReadExtents, false, ModelExtents, None, id)
  }

  function Finished(s: State, now: int, id: string): Out {
    if s.c.pendingButton then StartButton(s.(c := s.c.(pendingButton := false, pendingMotion := false)), now, id)
    else if s.c.pendingMotion then StartMotion(s.(c := s.c.(pendingMotion := false)), s.d.saved, now, id)
    else Out(s.(c := s.c.(chain := NoChain)), [])
  }

  function Scaled(e: Extents, k: real): Extents {
    seq(6, i requires 0 <= i < 6 => e[i] * k)
  }

  function Zoom(ev: Event, sens: real): real {
    1.0 + ev.axes.z as real * 0.0002 * sens
  }

  function AdvanceMotion(lib: Libm, s: State, result: Option<Json>, now: int, id: string): Out {
    match s.c.step
    case MReadExtents =>
      var t := s.(d := s.d.(extents := Overwrite(s.d.extents, result)));
      if !Carries(result, 6) then Finished(t, now, id)
      else Ask(t, MReadPerspective, false, ViewPerspective, None, id)
    case MReadPerspective =>
      var p := IsTrue(result) || (IsNumber(result) && result.value.r != 0.0);
      Ask(s.(d := s.d.(perspective := p)), MReadAffine, false, ViewAffine, None, id)
    case MReadAffine =>
      var t := s.(d := s.d.(curr := Overwrite(s.d.curr, result)));
      if !Carries(result, 16) then Finished(t, now, id)
      else
        var next := NewAffine(lib, t.d.curr, t.d.extents, t.d.active.axes, t.c.sens);
        var u := t.(d := t.d.(next := next));
        if !u.d.perspective then Ask(u, MReadViewExtents, false, ViewExtents, None, id)
        else Ask(u, MWriteMotion, true, MotionFlag, Some(Bool(true)), id)
    case MReadViewExtents =>
      var t := s.(d := s.d.(viewExtents := Overwrite(s.d.viewExtents, result)));
      if !Carries(result, 6) then Finished(t, now, id)
      else
        var u := t.(d := t.d.(viewExtents := Scaled(t.d.viewExtents, Zoom(t.d.active, t.c.sens))));
        Ask(u, MWriteMotion, true, MotionFlag, Some(Bool(true)), id)
    case MWriteMotion =>
      if !s.d.perspective then Ask(s, MWriteViewExtents, true, ViewExtents, Some(Numbers(s.d.viewExtents)), id)
      else Ask(s, MWriteAffine, true, ViewAffine, Some(Numbers(s.d.next)), id)
    case MWriteViewExtents =>
      Ask(s, MWriteAffine, true, ViewAffine, Some(Numbers(s.d.next)), id)
    case MWriteAffine => Finished(s, now, id)
    case _ => Finished(s, now, id)
  }

  function AdvanceButton(s: State, result: Option<Json>, now: int, id: string): Out {
    match s.c.step
    case BReadExtents =>
      var t := s.(d := s.d.(extents := Overwrite(s.d.extents, result)));
      if !Carries(result, 6) then Finished(t, now, id)
      else Ask(t, BReadFront, false, ViewsFront, None, id)
    case BReadFront => Ask(s, BWriteAffine, true, ViewAffine, result, id)
    case BWriteAffine => Ask(s, BWriteExtents, true, ViewExtents, Some(Numbers(Scaled(s.d.extents, 1.2))), id)
    case BWriteExtents => Finished(s, now, id)
    case _ => Finished(s, now, id)
  }

  function Advance(lib: Libm, s: State, result: Option<Json>, now: int, id: string): Out {
    if s.c.chain == MotionChain then AdvanceMotion(lib, s, result, now, id) else AdvanceButton(s, result, now, id)
  }

  // ----- messages -----

  function ColonAt(uri: string): (i: nat)
    ensures i <= |uri|
  {
    if uri == [] || uri[0] == ':' then 0 else 1 + ColonAt(uri[1..])
  }

  function Lookup(prefixes: seq<(string, string)>, name: string): string {
    if prefixes == [] then "" else if prefixes[0].0 == name then prefixes[0].1 else Lookup(prefixes[1..], name)
  }

  /** `prefix:rest` with the prefix replaced; an unknown prefix is dropped. */
  function Resolve(prefixes: seq<(string, string)>, uri: string): string {
    var colon := ColonAt(uri);
    if colon == |uri| then Take(uri, 319) else Take(Lookup(prefixes, uri[..colon]) + uri[colon + 1..], 319)
  }

  predicate KnownClient(name: Option<Json>) {
    name == Some(Str("Onshape")) || name == Some(Str("WebThreeJS Sample"))
  }

  function OnPrefix(s: State, items: seq<Json>): State {
    var prefix, uri := StrItem(items, 1), StrItem(items, 2);
    if prefix.Some? && uri.Some? && |s.c.prefixes| < MAX_PREFIXES then
      s.(c := s.c.(prefixes := s.c.prefixes + [(Take(prefix.value, 63), Take(uri.value, 255))]))
    else s
  }

  /** Whether a CALL is acceptable where the handshake stands. */
  predicate CallAccepted(hs: Stage, items: seq<Json>) {
    var proc := StrItem(items, 2);
    && StrItem(items, 1).Some? && proc.Some?
    && match hs
       case WaitMouse => proc.value == "3dx_rpc:create" && StrItem(items, 3) == Some("3dconnexion:3dmouse")
       case WaitController =>
         && proc.value == "3dx_rpc:create" && StrItem(items, 3) == Some("3dconnexion:3dcontroller")
         && StrItem(items, 4) == Some("mouse0")
       case Ready => true
  }

  function OnCall(s: State, items: seq<Json>): Out
    requires CallAccepted(s.c.hs, items)
  {
    var callId, proc := StrItem(items, 1).value, StrItem(items, 2).value;
    match s.c.hs
    case WaitMouse =>
      Out(s.(c := s.c.(hs := WaitController)), [CallResult(callId, Obj([("connexion", Str("mouse0"))]))])
    case WaitController =>
      var meta := Item(items, 5);
      var known := if meta.Some? && meta.value.Obj? then KnownClient(Field(meta.value.fields, "name")) else s.c.known;
      Out(s.(c := s.c.(hs := Ready, known := known)), [CallResult(callId, Obj([("instance", Str("controller0"))]))])
    case Ready =>
      if Resolve(s.c.prefixes, proc) == UPDATE_URI then
        var arg := Item(items, 3);
        var f := if arg.Some? && arg.value.Obj? then Field(arg.value.fields, "focus") else None;
        Out(if f.Some? then s.(c := s.c.(focus := IsTrue(f))) else s, [CallResult(callId, Null)])
      else
        Out(s, [CallError(callId, "wamp.error.not_found", Take("RPC '" + proc + "' not registered", 255))])
  }

  function OnSubscribe(s: State, items: seq<Json>): State {
    var topic := StrItem(items, 1);
    if topic.Some? && Resolve(s.c.prefixes, topic.value) == CONTROLLER_URI then
      s.(c := s.c.(subscribed := true, focus := true))
    else s
  }

  /** The reply belongs to the RPC the running chain waits for. */
  predicate Awaited(c: Control, items: seq<Json>) {
    c.chain != NoChain && StrItem(items, 1) == Some(c.callId)
  }

  /** A message that is not an array starting with a number is a violation; so is a bad CALL. */
  predicate WellFormed(json: Option<Json>) {
    json.Some? && json.value.Arr? && |json.value.items| >= 1 && json.value.items[0].Num?
  }

  function Kind(json: Option<Json>): int
    requires WellFormed(json)
  {
    Truncate(json.value.items[0].r)
  }

  /** The return code of `controller_on_message`, as a function of the handshake stage and the message alone. */
  predicate Accepts(hs: Stage, json: Option<Json>) {
    WellFormed(json) && (Kind(json) == WAMP_CALL ==> CallAccepted(hs, json.value.items))
  }

  function OnReply(lib: Libm, s: State, items: seq<Json>, isError: bool, now: int, id: string): Out {
    if !Awaited(s.c, items) then Out(s, [])
    else if isError then Finished(s, now, id)
    else Advance(lib, s, Item(items, 2), now, id)
  }

  function OnMessage(lib: Libm, s: State, json: Option<Json>, now: int, id: string): Out {
    if !Accepts(s.c.hs, json) then Out(s, [])
    else
      var items, kind := json.value.items, Kind(json);
      if kind == WAMP_PREFIX then Out(OnPrefix(s, items), [])
      else if kind == WAMP_CALL then OnCall(s, items)
      else if kind == WAMP_SUBSCRIBE then Out(OnSubscribe(s, items), [])
      else if kind == WAMP_CALLRESULT || kind == WAMP_CALLERROR then
        OnReply(lib, s, items, kind == WAMP_CALLERROR, now, id)
      else Out(s, [])
  }

  // ----- device events -----

  predicate GatesOpen(c: Control) {
    c.hs == Ready && c.known && c.subscribed && c.focus
  }

  predicate TimedOut(c: Control, now: int) {
    c.chain != NoChain && now - c.started >= CHAIN_TIMEOUT
  }

  function Abandon(s: State): State {
    s.(c := s.c.(chain := NoChain, pendingMotion := false, pendingButton := false))
  }

  function OnDevice(s: State, ev: Event, now: int, id: string): Out {
    if !GatesOpen(s.c) then Out(s, [])
    else
      var t := if TimedOut(s.c, now) then Abandon(s) else s;
      if t.c.chain != NoChain then
        if ev.isMotion then Out(State(t.c.(pendingMotion := true), t.d.(saved := ev)), [])
        else Out(t.(c := t.c.(pendingButton := true)), [])
      else if ev.isMotion then StartMotion(t, ev, now, id)
      else StartButton(t, now, id)
  }

  predicate GoodSensitivity(x: real) {
    0.01 <= x <= 10.0
  }

  function OnSensitivity(s: State, x: real): State {
    if GoodSensitivity(x) then s.(c := s.c.(sens := x)) else s
  }

  function Next(lib: Libm, s: State, i: Input): Out {
    match i
    case Message(json, now, id) => OnMessage(lib, s, json, now, id)
    case Device(ev, now, id) => OnDevice(s, ev, now, id)
    case Sensitivity(x) => Out(OnSensitivity(s, x), [])
  }

  /** A run: the final state and everything sent on the way. */
  function Run(lib: Libm, s: State, inputs: seq<Input>): Out {
    if inputs == [] then Out(s, [])
    else
      var front := Run(lib, s, inputs[..|inputs| - 1]);
      var last := Next(lib, front.s, inputs[|inputs| - 1]);
      Out(last.s, front.sent + last.sent)
  }
}
