/** The controller object: its fields, its float buffers, and its three inputs. */
module ControllerCode {
  import opened Bytes
  import opened GramSchmidt
  import opened Camera
  import opened Wamp
  import opened Protocol
  import MatrixCode

  class Controller {
    const lib: Libm
    var hs: Stage
    var known: bool
    var subscribed: bool
    var focus: bool
    var sensitivity: real
    var prefixes: seq<(string, string)>
    var chain: Chain
    var step: Step
    var pendingCallId: string
    var chainStarted: int
    var activeEv: Event
    var savedMotion: Event
    var havePendingMotion: bool
    var havePendingButton: bool
    var perspective: bool
    const modelExtents: array<real>
    const currAffine: array<real>
    const newAffine: array<real>
    const viewExtents: array<real>
    /** Everything handed to the send callback. */
    ghost var sent: seq<Sent>

    ghost predicate Valid() {
      && modelExtents.Length == 6 && viewExtents.Length == 6 && currAffine.Length == 16 && newAffine.Length == 16
      && modelExtents != viewExtents && currAffine != newAffine
    }

    ghost function Control(): Protocol.Control
      reads `hs, `known, `subscribed, `focus, `sensitivity, `prefixes, `chain, `step, `pendingCallId, `chainStarted
      reads `havePendingMotion, `havePendingButton
    {
      Protocol.Control(hs, known, subscribed, focus, sensitivity, prefixes, chain, step, pendingCallId, chainStarted,
                       havePendingMotion, havePendingButton)
    }

    ghost function State(): Protocol.State
      requires Valid()
      reads this, modelExtents, currAffine, newAffine, viewExtents
    {
      Protocol.State(Control(),
        Data(activeEv, savedMotion, modelExtents[..], perspective, currAffine[..], newAffine[..], viewExtents[..]))
    }

    /** The state and the sends are now what `o` says they become. */
    twostate predicate Became(o: Out)
      requires Valid()
      reads this, modelExtents, currAffine, newAffine, viewExtents
    {
      State() == o.s && sent == old(sent) + o.sent
    }

    constructor (lib: Libm, session: string)
      ensures Valid() && State() == INITIAL && sent == [Welcome(session)] && this.lib == lib
      ensures fresh(modelExtents) && fresh(currAffine) && fresh(newAffine) && fresh(viewExtents)
    {
      this.lib := lib;
      hs, known, subscribed, focus := WaitMouse, false, false, false;
      sensitivity, prefixes := DEFAULT_SENSITIVITY, [];
      chain, step, pendingCallId, chainStarted := NoChain, MReadExtents, "", 0;
      activeEv, savedMotion, havePendingMotion, havePendingButton := NO_EVENT, NO_EVENT, false, false;
      perspective := false;
      modelExtents := new real[6](_ => 0.0);
      viewExtents := new real[6](_ => 0.0);
      currAffine := new real[16](_ => 0.0);
      newAffine := new real[16](_ => 0.0);
      sent := [Welcome(session)];
      new;
      assert modelExtents[..] == ZEROES6 && viewExtents[..] == ZEROES6;
      assert currAffine[..] == ZEROES16 && newAffine[..] == ZEROES16;
    }

    method Send(x: Sent)
      modifies this`sent
      ensures sent == old(sent) + [x]
    {
      sent := sent + [x];
    }

    method RpcRead(prop: Property, id: string)
      modifies this`sent, this`pendingCallId
      ensures pendingCallId == id && sent == old(sent) + [Rpc(id, false, prop, None)]
    {
      pendingCallId := id;
      Send(Rpc(id, false, prop, None));
    }

    method RpcWrite(prop: Property, value: Option<Json>, id: string)
      modifies this`sent, this`pendingCallId
      ensures pendingCallId == id && sent == old(sent) + [Rpc(id, true, prop, value)]
    {
      pendingCallId := id;
      Send(Rpc(id, true, prop, value));
    }

    /** Goes to a step and asks for a property. */
    method ReadNext(next: Step, prop: Property, id: string)
      modifies this`step, this`sent, this`pendingCallId
      ensures Control() == old(Control()).(step := next, callId := id)
      ensures sent == old(sent) + [Rpc(id, false, prop, None)]
    {
      step := next;
      RpcRead(prop, id);
    }

    /** Goes to a step and updates a property. */
    method WriteNext(next: Step, prop: Property, value: Option<Json>, id: string)
      modifies this`step, this`sent, this`pendingCallId
      ensures Control() == old(Control()).(step := next, callId := id)
      ensures sent == old(sent) + [Rpc(id, true, prop, value)]
    {
      step := next;
      RpcWrite(prop, value, id);
    }

    lemma ChainFields()
      ensures Control().step == step && Control().sens == sensitivity
    {
    }

    /** Copies numbers until the array is full or something is not a number. */
    static method JsonToFloats(j: Option<Json>, out: array<real>) returns (ok: bool)
      modifies out
      ensures ok == Carries(j, out.Length)
      ensures out[..] == Overwrite(old(out[..]), j)
    {
      var n := out.Length;
      if j.None? || !j.value.Arr? || |j.value.items| < n {
        return false;
      }
      var items := j.value.items;
      for i := 0 to n
        invariant forall k :: 0 <= k < i ==> items[k].Num? && out[k] == items[k].r
        invariant forall k :: i <= k < n ==> out[k] == old(out[k])
      {
        if !items[i].Num? {
          assert Copied(j, n) == i by { LeadingIs(items, n, i); }
          return false;
        }
        out[i] := items[i].r;
      }
      return true;
    }

    static lemma LeadingIs(items: seq<Json>, n: nat, i: nat)
      requires i < n <= |items| && (forall k :: 0 <= k < i ==> items[k].Num?) && !items[i].Num?
      ensures LeadingNumbers(items, n) == i
    {
    }

    /** Marks the start of a chain, and asks its first question. */
    method Begin(kind: Chain, first: Step, now: int, id: string)
      modifies this`chain, this`step, this`chainStarted, this`pendingCallId, this`sent
      ensures Control() == old(Control()).(chain := kind, step := first, started := now, callId := id)
      ensures sent == old(sent) + [Rpc(id, false, ModelExtents, None)]
    {
      chain := kind;
      step := first;
      chainStarted := now;
      RpcRead(ModelExtents, id);
    }

    method StartMotionChain(ev: Event, now: int, id: string)
      requires Valid()
      modifies this
      ensures Became(StartMotion(old(State()), ev, now, id))
    {
      hide Control;
      activeEv := ev;
      Begin(MotionChain, MReadExtents, now, id);
    }

    method StartButtonChain(now: int, id: string)
      requires Valid()
      modifies this
      ensures Became(StartButton(old(State()), now, id))
    {
      hide Control;
      Begin(ButtonChain, BReadExtents, now, id);
    }

    method ChainFinished(now: int, id: string)
      requires Valid()
      modifies this
      ensures Became(Finished(old(State()), now, id))
    {
      chain := NoChain;
      if havePendingButton {
        havePendingButton := false;
        havePendingMotion := false;
        StartButtonChain(now, id);
      } else if havePendingMotion {
        havePendingMotion := false;
        StartMotionChain(savedMotion, now, id);
      }
    }

    method MotionExtentsRead(result: Option<Json>, now: int, id: string)
      requires Valid() && step == MReadExtents
      modifies this, modelExtents
      ensures Became(AdvanceMotion(lib, old(State()), result, now, id))
    {
      hide Control;
      ChainFields();
      hide Overwrite;
      hide Carries;
      hide NewAffine;
      var ok := JsonToFloats(result, modelExtents);
      if !ok {
        ChainFinished(now, id);
        return;
      }
      ReadNext(MReadPerspective, ViewPerspective, id);
    }

    method MotionAffineRead(result: Option<Json>, now: int, id: string)
      requires Valid() && step == MReadAffine
      modifies this, currAffine, newAffine
      ensures Became(AdvanceMotion(lib, old(State()), result, now, id))
    {
      hide Control;
      ChainFields();
      hide Overwrite;
      hide Carries;
      hide NewAffine;
      var ok := JsonToFloats(result, currAffine);
      if !ok {
        ChainFinished(now, id);
        return;
      }
      MatrixCode.ComputeNewAffine(lib, newAffine, currAffine, modelExtents, activeEv.axes, sensitivity);
      if !perspective {
        ReadNext(MReadViewExtents, ViewExtents, id);
      } else {
        WriteNext(MWriteMotion, MotionFlag, Some(Bool(true)), id);
      }
    }

    method MotionViewExtentsRead(result: Option<Json>, now: int, id: string)
      requires Valid() && step == MReadViewExtents
      modifies this, viewExtents
      ensures Became(AdvanceMotion(lib, old(State()), result, now, id))
    {
      hide Control;
      ChainFields();
      hide Overwrite;
      hide Carries;
      hide Scaled;
      hide Zoom;
      hide NewAffine;
      var ok := JsonToFloats(result, viewExtents);
      if !ok {
        ChainFinished(now, id);
        return;
      }
      ScaleAll(viewExtents, Zoom(activeEv, sensitivity));
      WriteNext(MWriteMotion, MotionFlag, Some(Bool(true)), id);
    }

    method MotionWriteView(id: string)
      requires Valid() && step == MWriteMotion
      modifies this
      ensures Became(AdvanceMotion(lib, old(State()), None, 0, id))
    {
      hide Control;
      ChainFields();
      hide Numbers;
      hide NewAffine;
      if !perspective {
        WriteNext(MWriteViewExtents, ViewExtents, Some(Numbers(viewExtents[..])), id);
      } else {
        WriteNext(MWriteAffine, ViewAffine, Some(Numbers(newAffine[..])), id);
      }
    }

    method AdvanceMotionChain(result: Option<Json>, now: int, id: string)
      requires Valid()
      modifies this, modelExtents, currAffine, newAffine, viewExtents
      ensures Became(AdvanceMotion(lib, old(State()), result, now, id))
    {
      hide Control;
      ChainFields();
      hide Overwrite;
      hide Carries;
      hide NewAffine;
      hide Finished;
      hide Numbers;
      hide Scaled;
      hide Zoom;
      match step
      case MReadExtents =>
        MotionExtentsRead(result, now, id);
      case MReadPerspective =>
        perspective := IsTrue(result) || (IsNumber(result) && result.value.r != 0.0);
        ReadNext(MReadAffine, ViewAffine, id);
      case MReadAffine =>
        MotionAffineRead(result, now, id);
      case MReadViewExtents =>
        MotionViewExtentsRead(result, now, id);
      case MWriteMotion =>
        MotionWriteView(id);
      case MWriteViewExtents =>
        WriteNext(MWriteAffine, ViewAffine, Some(Numbers(newAffine[..])), id);
      case MWriteAffine =>
        ChainFinished(now, id);
      case _ =>
        ChainFinished(now, id);
    }

    static method ScaleAll(a: array<real>, scale: real)
      requires a.Length == 6
      modifies a
      ensures a[..] == Scaled(old(a[..]), scale)
    {
      ghost var e: Extents := a[..];
      for i := 0 to 6
        invariant forall k :: 0 <= k < i ==> a[k] == e[k] * scale
        invariant forall k :: i <= k < 6 ==> a[k] == e[k]
      {
        a[i] := a[i] * scale;
      }
      forall k | 0 <= k < 6
        ensures a[k] == Scaled(e, scale)[k]
      {
        assert a[k] == e[k] * scale;
      }
    }

    method AdvanceButtonChain(result: Option<Json>, now: int, id: string)
      requires Valid()
      modifies this, modelExtents
      ensures Became(AdvanceButton(old(State()), result, now, id))
    {
      hide Control;
      ChainFields();
      hide Overwrite;
      hide Carries;
      hide Finished;
      hide Numbers;
      match step
      case BReadExtents =>
        var ok := JsonToFloats(result, modelExtents);
        if !ok {
          ChainFinished(now, id);
          return;
        }
        ReadNext(BReadFront, ViewsFront, id);
      case BReadFront =>
        WriteNext(BWriteAffine, ViewAffine, result, id);
      case BWriteAffine =>
        var scaled := seq(6, i requires 0 <= i < 6 reads modelExtents => modelExtents[i] * 1.2);
        assert scaled == Scaled(modelExtents[..], 1.2);
        WriteNext(BWriteExtents, ViewExtents, Some(Numbers(scaled)), id);
      case BWriteExtents =>
        ChainFinished(now, id);
      case _ =>
        ChainFinished(now, id);
    }

    method ResolveUri(uri: string) returns (out: string)
      ensures out == Resolve(prefixes, uri)
    {
      var colon := ColonAt(uri);
      if colon == |uri| {
        return Take(uri, 319);
      }
      var rest := uri[colon + 1..];
      for i := 0 to |prefixes|
        invariant Lookup(prefixes, uri[..colon]) == Lookup(prefixes[i..], uri[..colon])
      {
        if prefixes[i].0 == uri[..colon] {
          return Take(prefixes[i].1 + rest, 319);
        }
        assert prefixes[i..][1..] == prefixes[i + 1..];
      }
      assert "" + rest == rest;
      return Take(rest, 319);
    }

    method CreateController(items: seq<Json>)
      requires Valid() && hs == WaitController && CallAccepted(hs, items)
      modifies this
      ensures Became(OnCall(old(State()), items))
    {
      hide Field;
      hide KnownClient;
      var metadata := Item(items, 5);
      if metadata.Some? && metadata.value.Obj? {
        known := KnownClient(Field(metadata.value.fields, "name"));
      }
      Send(CallResult(StrItem(items, 1).value, Obj([("instance", Str("controller0"))])));
      hs := Ready;
    }

    method AnswerCall(items: seq<Json>)
      requires Valid() && hs == Ready && CallAccepted(hs, items)
      modifies this
      ensures Became(OnCall(old(State()), items))
    {
      hide Resolve;
      hide Field;
      hide Take;
      var callId, proc := StrItem(items, 1).value, StrItem(items, 2).value;
      var resolved := ResolveUri(proc);
      if resolved == UPDATE_URI {
        var arg0 := Item(items, 3);
        if arg0.Some? && arg0.value.Obj? {
          var f := Field(arg0.value.fields, "focus");
          if f.Some? {
            focus := IsTrue(f);
          }
        }
        Send(CallResult(callId, Null));
      } else {
        Send(CallError(callId, "wamp.error.not_found", Take("RPC '" + proc + "' not registered", 255)));
      }
    }

    method HandleCall(items: seq<Json>) returns (rc: int)
      requires Valid()
      modifies this
      ensures rc == if CallAccepted(old(hs), items) then 0 else -1
      ensures Became(if rc == 0 then OnCall(old(State()), items) else Out(old(State()), []))
    {
      var callId, proc := StrItem(items, 1), StrItem(items, 2);
      if callId.None? || proc.None? {
        return -1;
      }
      if hs == WaitMouse {
        if proc.value != "3dx_rpc:create" || StrItem(items, 3) != Some("3dconnexion:3dmouse") {
          return -1;
        }
        Send(CallResult(callId.value, Obj([("connexion", Str("mouse0"))])));
        hs := WaitController;
      } else if hs == WaitController {
        if proc.value != "3dx_rpc:create" || StrItem(items, 3) != Some("3dconnexion:3dcontroller")
           || StrItem(items, 4) != Some("mouse0") {
          return -1;
        }
        CreateController(items);
      } else {
        AnswerCall(items);
      }
      return 0;
    }

    method HandlePrefix(items: seq<Json>)
      requires Valid()
      modifies this`prefixes
      ensures Became(Out(OnPrefix(old(State()), items), []))
    {
      var prefix, uri := StrItem(items, 1), StrItem(items, 2);
      if prefix.Some? && uri.Some? && |prefixes| < MAX_PREFIXES {
        prefixes := prefixes + [(Take(prefix.value, 63), Take(uri.value, 255))];
      }
    }

    method HandleSubscribe(items: seq<Json>)
      requires Valid()
      modifies this`subscribed, this`focus
      ensures Became(Out(OnSubscribe(old(State()), items), []))
    {
      hide Resolve;
      var topic := StrItem(items, 1);
      if topic.Some? {
        var resolved := ResolveUri(topic.value);
        if resolved == CONTROLLER_URI {
          subscribed := true;
          focus := true;
        }
      }
    }

    method HandleReply(items: seq<Json>, isError: bool, now: int, id: string)
      requires Valid()
      modifies this, modelExtents, currAffine, newAffine, viewExtents
      ensures Became(OnReply(lib, old(State()), items, isError, now, id))
    {
      hide AdvanceMotion;
      hide AdvanceButton;
      hide Finished;
      var callId := StrItem(items, 1);
      if chain != NoChain && callId == Some(pendingCallId) {
        if isError {
          ChainFinished(now, id);
        } else if chain == MotionChain {
          AdvanceMotionChain(Item(items, 2), now, id);
        } else {
          AdvanceButtonChain(Item(items, 2), now, id);
        }
      }
    }

    /** One complete text message from the client. */
    method OnMessage(json: Option<Json>, now: int, id: string) returns (rc: int)
      requires Valid()
      modifies this, modelExtents, currAffine, newAffine, viewExtents
      ensures rc == if Accepts(old(hs), json) then 0 else -1
      ensures Became(Protocol.OnMessage(lib, old(State()), json, now, id))
    {
      hide OnReply;
      hide OnPrefix;
      hide OnSubscribe;
      hide Protocol.OnCall;
      hide CallAccepted;
      rc := 0;
      if json.None? || !json.value.Arr? || |json.value.items| < 1 {
        return -1;
      }
      var items := json.value.items;
      if !items[0].Num? {
        return -1;
      }
      var kind := Truncate(items[0].r);
      if kind == WAMP_PREFIX {
        HandlePrefix(items);
      } else if kind == WAMP_CALL {
        rc := HandleCall(items);
      } else if kind == WAMP_SUBSCRIBE {
        HandleSubscribe(items);
      } else if kind == WAMP_CALLRESULT || kind == WAMP_CALLERROR {
        HandleReply(items, kind == WAMP_CALLERROR, now, id);
      }
    }

    method AbandonChain()
      requires Valid()
      modifies this`chain, this`havePendingMotion, this`havePendingButton
      ensures Became(Out(Abandon(old(State())), []))
    {
      chain := NoChain;
      havePendingMotion := false;
      havePendingButton := false;
    }

    /** One event from the device. */
    method OnSpnavEvent(ev: Event, now: int, id: string)
      requires Valid()
      modifies this
      ensures Became(OnDevice(old(State()), ev, now, id))
    {
      if hs != Ready || !known || !subscribed || !focus {
        return;
      }
      if chain != NoChain && now - chainStarted >= CHAIN_TIMEOUT {
        AbandonChain();
      }
      if chain != NoChain {
        if ev.isMotion {
          savedMotion := ev;
          havePendingMotion := true;
        } else {
          havePendingButton := true;
        }
        return;
      }
      if ev.isMotion {
        StartMotionChain(ev, now, id);
      } else {
        StartButtonChain(now, id);
      }
    }

    method SetSensitivity(value: real) returns (rc: int)
      requires Valid()
      modifies this`sensitivity
      ensures rc == if GoodSensitivity(value) then 0 else -1
      ensures Became(Out(OnSensitivity(old(State()), value), []))
    {
      if value < 0.01 || value > 10.0 {
        return -1;
      }
      sensitivity := value;
      return 0;
    }
  }
}
