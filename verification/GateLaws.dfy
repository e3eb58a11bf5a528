/** What opens and closes the gates for device events, in terms of the messages received alone: every literal
    of the handshake is written out, and no function of the state machine is used to say when a gate opens. */
module GateLaws {
  import opened Bytes
  import opened GramSchmidt
  import opened Wamp
  import opened Protocol
  import opened Runs
  import opened RunLaws
  import opened RunSafety

  // ----- what a message says -----

  /** An array whose first item is a number that cuts down to n. */
  predicate Says(m: Option<Json>, n: nat) {
    && m.Some? && m.value.Arr? && |m.value.items| >= 1 && m.value.items[0].Num?
    && n as real <= m.value.items[0].r < (n + 1) as real
  }

  predicate HasString(m: Option<Json>, i: nat) {
    m.Some? && m.value.Arr? && i < |m.value.items| && m.value.items[i].Str?
  }

  predicate HasText(m: Option<Json>, i: nat, text: string) {
    HasString(m, i) && m.value.items[i].s == text
  }

  predicate HasObject(m: Option<Json>, i: nat) {
    m.Some? && m.value.Arr? && i < |m.value.items| && m.value.items[i].Obj?
  }

  /** The first field of that name has that value. */
  ghost predicate HasField(fields: seq<(string, Json)>, name: string, v: Json) {
    exists f :: 0 <= f < |fields| && fields[f] == (name, v) && forall g :: 0 <= g < f ==> fields[g].0 != name
  }

  predicate AsksForMouse(m: Option<Json>) {
    Says(m, 2) && HasString(m, 1) && HasText(m, 2, "3dx_rpc:create") && HasText(m, 3, "3dconnexion:3dmouse")
  }

  predicate AsksForController(m: Option<Json>) {
    && Says(m, 2) && HasString(m, 1) && HasText(m, 2, "3dx_rpc:create")
    && HasText(m, 3, "3dconnexion:3dcontroller") && HasText(m, 4, "mouse0")
  }

  /** The metadata names one of the two applications that the daemon knows. */
  ghost predicate Introduces(m: Option<Json>) {
    && HasObject(m, 5)
    && (|| HasField(m.value.items[5].fields, "name", Str("Onshape"))
        || HasField(m.value.items[5].fields, "name", Str("WebThreeJS Sample")))
  }

  // ----- the gates, from the messages received -----

  /** Some message asked for the mouse. */
  ghost predicate Asked(ms: seq<Option<Json>>) {
    exists k :: 0 <= k < |ms| && AsksForMouse(ms[k])
  }

  /** Behind that one, some message asked for the controller. */
  ghost predicate Created(ms: seq<Option<Json>>) {
    exists k :: 0 <= k < |ms| && AsksForController(ms[k]) && Asked(ms[..k])
  }

  /** The message that created the controller came from a known application. */
  ghost predicate Recognised(ms: seq<Option<Json>>) {
    exists k :: 0 <= k < |ms| && AsksForController(ms[k]) && Asked(ms[..k]) && !Created(ms[..k]) && Introduces(ms[k])
  }

  /** The first eight prefixes that were announced. */
  function Announced(ms: seq<Option<Json>>): seq<(string, string)> {
    if ms == [] then []
    else
      var front, m := Announced(ms[..|ms| - 1]), ms[|ms| - 1];
      if Says(m, 1) && HasString(m, 1) && HasString(m, 2) && |front| < 8 then
        front + [(AtMost(m.value.items[1].s, 63), AtMost(m.value.items[2].s, 255))]
      else front
  }

  function AtMost(s: string, n: nat): string {
    if |s| <= n then s else s[..n]
  }

  /** What a name stands for: itself without a colon; otherwise what the first prefix of that name stands for,
      or nothing, followed by what is behind the colon. */
  ghost predicate Means(prefixes: seq<(string, string)>, name: string, full: string) {
    || (':' !in name && full == name)
    || exists c :: 0 <= c < |name| && MeansAt(prefixes, name, c, full)
  }

  ghost predicate MeansAt(prefixes: seq<(string, string)>, name: string, c: nat, full: string)
    requires c < |name|
  {
    && name[c] == ':' && ':' !in name[..c]
    && (|| ((forall k :: 0 <= k < |prefixes| ==> prefixes[k].0 != name[..c]) && full == name[c + 1..])
        || exists k :: 0 <= k < |prefixes| && IsFirst(prefixes, k, name[..c]) && full == prefixes[k].1 + name[c + 1..])
  }

  ghost predicate IsFirst(prefixes: seq<(string, string)>, k: nat, name: string)
    requires k < |prefixes|
  {
    prefixes[k].0 == name && forall j :: 0 <= j < k ==> prefixes[j].0 != name
  }

  /** A name stands for an address, as far as the daemon's buffer of 320 characters reaches. */
  ghost predicate StandsFor(prefixes: seq<(string, string)>, name: string, address: string) {
    exists full :: Means(prefixes, name, full) && AtMost(full, 319) == address
  }

  /** Message k subscribes to the controller's topic. */
  ghost predicate Subscribes(ms: seq<Option<Json>>, k: nat)
    requires k < |ms|
  {
    && Says(ms[k], 5) && HasString(ms[k], 1)
    && StandsFor(Announced(ms[..k]), ms[k].value.items[1].s, "wss://127.51.68.120/3dconnexion3dcontroller/controller0")
  }

  /** Message k is an update call with a focus in it, to a controller that exists. */
  ghost predicate SetsFocus(ms: seq<Option<Json>>, k: nat, focus: Json)
    requires k < |ms|
  {
    && Created(ms[..k]) && Says(ms[k], 2) && HasString(ms[k], 1) && HasString(ms[k], 2)
    && StandsFor(Announced(ms[..k]), ms[k].value.items[2].s, "wss://127.51.68.120/3dconnexion#update")
    && HasObject(ms[k], 3) && HasField(ms[k].value.items[3].fields, "focus", focus)
  }

  ghost predicate TakesFocus(ms: seq<Option<Json>>, k: nat)
    requires k < |ms|
  {
    exists v :: SetsFocus(ms, k, v) && v != Bool(true)
  }

  ghost predicate Subscribed(ms: seq<Option<Json>>) {
    exists k :: 0 <= k < |ms| && Subscribes(ms, k)
  }

  /** Some message gave focus, and none since took it away. */
  ghost predicate Focused(ms: seq<Option<Json>>) {
    exists k :: 0 <= k < |ms| && (Subscribes(ms, k) || SetsFocus(ms, k, Bool(true)))
                && forall j :: k < j < |ms| ==> !TakesFocus(ms, j)
  }

  /** The gates for device events. */
  ghost predicate Open(ms: seq<Option<Json>>) {
    Created(ms) && Recognised(ms) && Subscribed(ms) && Focused(ms)
  }

  // ----- the words of the messages and those of the state machine -----

  lemma KindSays(m: Option<Json>, n: nat)
    requires n > 0
    ensures Says(m, n) <==> WellFormed(m) && Kind(m) == n
  {
  }

  lemma {:induction false} FieldHas(fields: seq<(string, Json)>, name: string, v: Json)
    ensures Field(fields, name) == Some(v) <==> HasField(fields, name, v)
  {
    if fields != [] {
      var rest := fields[1..];
      FieldHas(rest, name, v);
      if fields[0].0 == name {
        assert HasField(fields, name, v) <==> fields[0].1 == v;
      } else {
        if HasField(rest, name, v) {
          var f :| 0 <= f < |rest| && rest[f] == (name, v) && forall g :: 0 <= g < f ==> rest[g].0 != name;
          assert fields[f + 1] == (name, v);
          forall g | 0 <= g < f + 1 ensures fields[g].0 != name { if g > 0 { assert fields[g] == rest[g - 1]; } }
        }
        if HasField(fields, name, v) {
          var f :| 0 <= f < |fields| && fields[f] == (name, v) && forall g :: 0 <= g < f ==> fields[g].0 != name;
          assert rest[f - 1] == (name, v);
          forall g | 0 <= g < f - 1 ensures rest[g].0 != name { assert rest[g] == fields[g + 1]; }
        }
      }
    }
  }

  lemma {:induction false} ColonIsFirst(uri: string)
    ensures var c := ColonAt(uri);
            ':' !in uri[..c] && (c < |uri| ==> uri[c] == ':') && (c == |uri| <==> ':' !in uri)
  {
    if uri != [] && uri[0] != ':' {
      var rest := uri[1..];
      ColonIsFirst(rest);
      var c := ColonAt(rest);
      assert uri[..1 + c] == [uri[0]] + rest[..c];
      assert uri == [uri[0]] + rest;
    }
  }

  /** The lookup finds the first entry of the name, or nothing. */
  lemma {:induction false} LooksUp(prefixes: seq<(string, string)>, name: string)
    ensures || ((forall k :: 0 <= k < |prefixes| ==> prefixes[k].0 != name) && Lookup(prefixes, name) == "")
            || exists k :: 0 <= k < |prefixes| && IsFirst(prefixes, k, name) && Lookup(prefixes, name) == prefixes[k].1
  {
    if prefixes != [] {
      if prefixes[0].0 == name {
        assert IsFirst(prefixes, 0, name);
      } else {
        var rest := prefixes[1..];
        LooksUp(rest, name);
        if exists k :: 0 <= k < |rest| && IsFirst(rest, k, name) && Lookup(rest, name) == rest[k].1 {
          var k :| 0 <= k < |rest| && IsFirst(rest, k, name) && Lookup(rest, name) == rest[k].1;
          forall j | 0 <= j < k + 1 ensures prefixes[j].0 != name { if j > 0 { assert prefixes[j] == rest[j - 1]; } }
          assert prefixes[k + 1] == rest[k];
          assert IsFirst(prefixes, k + 1, name);
        } else {
          forall k | 0 <= k < |prefixes| ensures prefixes[k].0 != name {
            if k > 0 { assert prefixes[k] == rest[k - 1]; }
          }
        }
      }
    }
  }

  /** The one address a name stands for, before it is cut to size. */
  function Full(prefixes: seq<(string, string)>, name: string): string {
    var c := ColonAt(name);
    if c == |name| then name else Lookup(prefixes, name[..c]) + name[c + 1..]
  }

  lemma FullIsMeant(prefixes: seq<(string, string)>, name: string)
    ensures Means(prefixes, name, Full(prefixes, name))
  {
    ColonIsFirst(name);
    var c := ColonAt(name);
    if c < |name| {
      LooksUp(prefixes, name[..c]);
      assert "" + name[c + 1..] == name[c + 1..];
      assert MeansAt(prefixes, name, c, Full(prefixes, name));
    }
  }

  lemma MeantIsFull(prefixes: seq<(string, string)>, name: string, full: string)
    requires Means(prefixes, name, full)
    ensures full == Full(prefixes, name)
  {
    ColonIsFirst(name);
    var at := ColonAt(name);
    if !(':' !in name && full == name) {
      var c :| 0 <= c < |name| && MeansAt(prefixes, name, c, full);
      SameColon(name, c, at);
      LooksUp(prefixes, name[..c]);
      assert "" + name[c + 1..] == name[c + 1..];
    }
  }

  lemma SameColon(name: string, c: nat, at: nat)
    requires c < |name| && at < |name| && name[c] == ':' && name[at] == ':'
    requires ':' !in name[..c] && ':' !in name[..at]
    ensures c == at
  {
    assert forall k :: 0 <= k < at ==> name[k] in name[..at];
    assert forall k :: 0 <= k < c ==> name[k] in name[..c];
  }

  /** What the controller resolves a name to is what the announced prefixes say it stands for. */
  lemma ResolvesAsAnnounced(prefixes: seq<(string, string)>, name: string, address: string)
    ensures Resolve(prefixes, name) == address <==> StandsFor(prefixes, name, address)
  {
    FullIsMeant(prefixes, name);
    assert AtMost(Full(prefixes, name), 319) == Resolve(prefixes, name);
    if StandsFor(prefixes, name, address) {
      var full :| Means(prefixes, name, full) && AtMost(full, 319) == address;
      MeantIsFull(prefixes, name, full);
    }
  }

  // ----- one more message -----

  lemma Fronts(ms: seq<Option<Json>>, m: Option<Json>, k: nat)
    requires k <= |ms|
    ensures (ms + [m])[..k] == ms[..k] && (k < |ms| ==> (ms + [m])[k] == ms[k]) && (ms + [m])[|ms|] == m
    ensures (ms + [m])[..|ms|] == ms
  {
  }

  lemma AskedSnoc(ms: seq<Option<Json>>, m: Option<Json>)
    ensures Asked(ms + [m]) <==> Asked(ms) || AsksForMouse(m)
  {
    Fronts(ms, m, |ms|);
    if Asked(ms) {
      var k :| 0 <= k < |ms| && AsksForMouse(ms[k]);
      assert (ms + [m])[k] == ms[k];
    }
  }

  lemma CreatedSnoc(ms: seq<Option<Json>>, m: Option<Json>)
    ensures Created(ms + [m]) <==> Created(ms) || (AsksForController(m) && Asked(ms))
  {
    hide AsksForController;
    hide Asked;
    Fronts(ms, m, |ms|);
    forall k | 0 <= k < |ms| ensures (ms + [m])[..k] == ms[..k] { Fronts(ms, m, k); }
    if Created(ms) {
      var k :| 0 <= k < |ms| && AsksForController(ms[k]) && Asked(ms[..k]);
      assert (ms + [m])[k] == ms[k];
    }
  }

  lemma RecognisedSnoc(ms: seq<Option<Json>>, m: Option<Json>)
    ensures Recognised(ms + [m]) <==>
            Recognised(ms) || (AsksForController(m) && Asked(ms) && !Created(ms) && Introduces(m))
    ensures Recognised(ms) ==> Created(ms)
  {
    hide AsksForController;
    hide Asked;
    hide Introduces;
    Fronts(ms, m, |ms|);
    forall k | 0 <= k < |ms| ensures (ms + [m])[..k] == ms[..k] { Fronts(ms, m, k); }
    if Recognised(ms) {
      var k :| 0 <= k < |ms| && AsksForController(ms[k]) && Asked(ms[..k]) && !Created(ms[..k]) && Introduces(ms[k]);
      assert (ms + [m])[k] == ms[k];
    }
  }

  lemma SubscribedSnoc(ms: seq<Option<Json>>, m: Option<Json>)
    ensures Subscribed(ms + [m]) <==> Subscribed(ms) || Subscribes(ms + [m], |ms|)
  {
    hide StandsFor;
    hide Announced;
    hide Says;
    forall k | 0 <= k < |ms| ensures (ms + [m])[..k] == ms[..k] { Fronts(ms, m, k); }
    if Subscribed(ms) {
      var k :| 0 <= k < |ms| && Subscribes(ms, k);
      assert Subscribes(ms + [m], k);
    }
    if Subscribed(ms + [m]) {
      var k :| 0 <= k < |ms + [m]| && Subscribes(ms + [m], k);
      if k < |ms| { assert Subscribes(ms, k); }
    }
  }

  lemma SameAt(ms: seq<Option<Json>>, m: Option<Json>, k: nat)
    requires k < |ms|
    ensures Subscribes(ms + [m], k) == Subscribes(ms, k) && TakesFocus(ms + [m], k) == TakesFocus(ms, k)
    ensures SetsFocus(ms + [m], k, Bool(true)) == SetsFocus(ms, k, Bool(true))
  {
    hide StandsFor;
    hide Announced;
    hide Says;
    hide Created;
    hide HasField;
    hide HasObject;
    Fronts(ms, m, k);
    assert forall v :: SetsFocus(ms + [m], k, v) == SetsFocus(ms, k, v);
  }

  lemma FocusedSnoc(ms: seq<Option<Json>>, m: Option<Json>)
    ensures var n := ms + [m];
            Focused(n) <==>
              || Subscribes(n, |ms|) || SetsFocus(n, |ms|, Bool(true))
              || (Focused(ms) && !TakesFocus(n, |ms|))
  {
    hide Subscribes;
    hide SetsFocus;
    hide TakesFocus;
    var n := ms + [m];
    forall k | 0 <= k < |ms|
      ensures Subscribes(n, k) == Subscribes(ms, k) && TakesFocus(n, k) == TakesFocus(ms, k)
      ensures SetsFocus(n, k, Bool(true)) == SetsFocus(ms, k, Bool(true))
    {
      SameAt(ms, m, k);
    }
    if Focused(ms) && !TakesFocus(n, |ms|) {
      var k :| 0 <= k < |ms| && (Subscribes(ms, k) || SetsFocus(ms, k, Bool(true)))
               && forall j :: k < j < |ms| ==> !TakesFocus(ms, j);
      assert Subscribes(n, k) || SetsFocus(n, k, Bool(true));
    }
    if Focused(n) && !Subscribes(n, |ms|) && !SetsFocus(n, |ms|, Bool(true)) {
      var k :| 0 <= k < |n| && (Subscribes(n, k) || SetsFocus(n, k, Bool(true)))
               && forall j :: k < j < |n| ==> !TakesFocus(n, j);
      assert k < |ms|;
      assert forall j :: k < j < |ms| ==> !TakesFocus(ms, j);
    }
  }

  // ----- the state machine follows the messages -----

  /** The controller's gates are what the messages make them. */
  ghost predicate Follows(c: Control, ms: seq<Option<Json>>) {
    && c.hs == (if Created(ms) then Ready else if Asked(ms) then WaitController else WaitMouse)
    && (c.known <==> Recognised(ms))
    && c.prefixes == Announced(ms)
    && (c.subscribed <==> Subscribed(ms))
    && (c.focus <==> Focused(ms))
  }

  ghost predicate SameGates(c: Control, d: Control) {
    d.hs == c.hs && d.known == c.known && d.prefixes == c.prefixes && d.subscribed == c.subscribed && d.focus == c.focus
  }

  /** The focus that a message brings, if it is an update call with one in it. */
  function FocusIn(c: Control, m: Option<Json>): Option<Json> {
    if c.hs == Ready && Says(m, 2) && HasString(m, 1) && HasString(m, 2) && HasObject(m, 3)
       && Resolve(c.prefixes, m.value.items[2].s) == UPDATE_URI
    then Field(m.value.items[3].fields, "focus")
    else None
  }

  predicate SubscribesTo(c: Control, m: Option<Json>) {
    Says(m, 5) && HasString(m, 1) && Resolve(c.prefixes, m.value.items[1].s) == CONTROLLER_URI
  }

  /** What one message does to the gates. */
  ghost predicate GatesAfter(c: Control, m: Option<Json>, d: Control) {
    && d.hs == (if c.hs == WaitMouse && AsksForMouse(m) then WaitController
                else if c.hs == WaitController && AsksForController(m) then Ready
                else c.hs)
    && d.known == (if c.hs == WaitController && AsksForController(m) && HasObject(m, 5) then Introduces(m) else c.known)
    && d.prefixes == (if Says(m, 1) && HasString(m, 1) && HasString(m, 2) && |c.prefixes| < 8 then
                        c.prefixes + [(AtMost(m.value.items[1].s, 63), AtMost(m.value.items[2].s, 255))]
                      else c.prefixes)
    && d.subscribed == (c.subscribed || SubscribesTo(c, m))
    && d.focus == (if SubscribesTo(c, m) then true
                   else if FocusIn(c, m).Some? then FocusIn(c, m).value == Bool(true)
                   else c.focus)
  }

  lemma KnownIntroduces(m: Option<Json>)
    requires HasObject(m, 5)
    ensures KnownClient(Field(m.value.items[5].fields, "name")) <==> Introduces(m)
  {
    FieldHas(m.value.items[5].fields, "name", Str("Onshape"));
    FieldHas(m.value.items[5].fields, "name", Str("WebThreeJS Sample"));
  }

  lemma MouseCall(s: State, m: Option<Json>)
    requires Says(m, 2) && WellFormed(m) && s.c.hs == WaitMouse && CallAccepted(s.c.hs, m.value.items)
    ensures GatesAfter(s.c, m, OnCall(s, m.value.items).s.c)
  {
    hide Resolve;
    hide Field;
    hide KnownClient;
    hide Introduces;
    hide Take;
  }

  lemma ControllerCall(s: State, m: Option<Json>)
    requires Says(m, 2) && WellFormed(m) && s.c.hs == WaitController && CallAccepted(s.c.hs, m.value.items)
    ensures GatesAfter(s.c, m, OnCall(s, m.value.items).s.c)
  {
    hide Resolve;
    hide Field;
    hide KnownClient;
    hide Introduces;
    hide Take;
    if HasObject(m, 5) { KnownIntroduces(m); }
  }

  lemma LaterCall(s: State, m: Option<Json>)
    requires Says(m, 2) && WellFormed(m) && s.c.hs == Ready && CallAccepted(s.c.hs, m.value.items)
    ensures GatesAfter(s.c, m, OnCall(s, m.value.items).s.c)
  {
    hide Resolve;
    hide Field;
    hide KnownClient;
    hide Introduces;
    hide Take;
  }

  lemma CallMoves(s: State, m: Option<Json>)
    requires Says(m, 2) && WellFormed(m) && CallAccepted(s.c.hs, m.value.items)
    ensures GatesAfter(s.c, m, OnCall(s, m.value.items).s.c)
  {
    hide OnCall;
    hide GatesAfter;
    hide CallAccepted;
    match s.c.hs
    case WaitMouse => MouseCall(s, m);
    case WaitController => ControllerCall(s, m);
    case Ready => LaterCall(s, m);
  }

  lemma RejectedCall(c: Control, m: Option<Json>)
    requires Says(m, 2) && WellFormed(m) && !CallAccepted(c.hs, m.value.items)
    ensures GatesAfter(c, m, c)
  {
    hide Resolve;
    hide Field;
    hide Introduces;
  }

  lemma OtherMoves(s: State, m: Option<Json>)
    requires !Says(m, 2)
    ensures Says(m, 1) ==> GatesAfter(s.c, m, OnPrefix(s, m.value.items).c)
    ensures Says(m, 5) ==> GatesAfter(s.c, m, OnSubscribe(s, m.value.items).c)
    ensures !Says(m, 1) && !Says(m, 5) ==> GatesAfter(s.c, m, s.c)
  {
    hide Resolve;
    hide Field;
    hide Introduces;
  }

  lemma SameAfter(c: Control, m: Option<Json>, d: Control, e: Control)
    requires GatesAfter(c, m, d) && SameGates(d, e)
    ensures GatesAfter(c, m, e)
  {
    hide Resolve;
    hide Field;
    hide Introduces;
    hide Says;
    hide AsksForMouse;
    hide AsksForController;
  }

  lemma MessageMoves(lib: Libm, s: State, m: Option<Json>, now: int, id: string)
    requires Consistent(s)
    ensures GatesAfter(s.c, m, OnMessage(lib, s, m, now, id).s.c)
  {
    hide OnReply;
    hide OnCall;
    hide OnPrefix;
    hide OnSubscribe;
    hide CallAccepted;
    hide GatesAfter;
    hide Kind;
    hide Says;
    KindSays(m, 1);
    KindSays(m, 2);
    KindSays(m, 3);
    KindSays(m, 4);
    KindSays(m, 5);
    if Says(m, 2) {
      if CallAccepted(s.c.hs, m.value.items) { CallMoves(s, m); } else { RejectedCall(s.c, m); }
    } else {
      OtherMoves(s, m);
      if Says(m, 3) || Says(m, 4) {
        ReplyGates(lib, s, m.value.items, Says(m, 4), now, id);
        SameAfter(s.c, m, s.c, OnMessage(lib, s, m, now, id).s.c);
      }
    }
  }

  lemma SubscribesAs(c: Control, ms: seq<Option<Json>>, m: Option<Json>)
    requires c.prefixes == Announced(ms)
    ensures Subscribes(ms + [m], |ms|) <==> SubscribesTo(c, m)
  {
    hide Resolve;
    hide StandsFor;
    hide Announced;
    Fronts(ms, m, |ms|);
    if HasString(m, 1) { ResolvesAsAnnounced(c.prefixes, m.value.items[1].s, CONTROLLER_URI); }
  }

  lemma FocusAs(c: Control, ms: seq<Option<Json>>, m: Option<Json>, v: Json)
    requires c.prefixes == Announced(ms) && (c.hs == Ready <==> Created(ms))
    ensures SetsFocus(ms + [m], |ms|, v) <==> FocusIn(c, m) == Some(v)
  {
    hide Resolve;
    hide StandsFor;
    hide Announced;
    hide Created;
    hide Field;
    hide HasField;
    Fronts(ms, m, |ms|);
    if HasString(m, 2) { ResolvesAsAnnounced(c.prefixes, m.value.items[2].s, UPDATE_URI); }
    if HasObject(m, 3) { FieldHas(m.value.items[3].fields, "focus", v); }
  }

  lemma FocusMoves(c: Control, ms: seq<Option<Json>>, m: Option<Json>)
    requires c.prefixes == Announced(ms) && (c.hs == Ready <==> Created(ms)) && (c.focus <==> Focused(ms))
    ensures Focused(ms + [m]) <==>
            if SubscribesTo(c, m) then true
            else if FocusIn(c, m).Some? then FocusIn(c, m).value == Bool(true)
            else c.focus
  {
    hide Subscribes;
    hide SubscribesTo;
    hide SetsFocus;
    hide FocusIn;
    hide Focused;
    hide Announced;
    hide Created;
    FocusedSnoc(ms, m);
    SubscribesAs(c, ms, m);
    forall v ensures SetsFocus(ms + [m], |ms|, v) <==> FocusIn(c, m) == Some(v) { FocusAs(c, ms, m, v); }
  }

  lemma AnnouncedSnoc(ms: seq<Option<Json>>, m: Option<Json>)
    ensures Announced(ms + [m]) ==
            if Says(m, 1) && HasString(m, 1) && HasString(m, 2) && |Announced(ms)| < 8 then
              Announced(ms) + [(AtMost(m.value.items[1].s, 63), AtMost(m.value.items[2].s, 255))]
            else Announced(ms)
  {
    Fronts(ms, m, |ms|);
  }

  lemma FollowsNext(c: Control, ms: seq<Option<Json>>, m: Option<Json>, d: Control)
    requires Follows(c, ms) && GatesAfter(c, m, d)
    ensures Follows(d, ms + [m])
  {
    hide Says;
    hide HasString;
    hide HasObject;
    hide AsksForMouse;
    hide AsksForController;
    hide Introduces;
    hide Asked;
    hide Created;
    hide Recognised;
    hide Announced;
    hide Subscribed;
    hide Subscribes;
    hide SubscribesTo;
    hide Focused;
    hide FocusIn;
    AskedSnoc(ms, m);
    CreatedSnoc(ms, m);
    RecognisedSnoc(ms, m);
    AnnouncedSnoc(ms, m);
    SubscribedSnoc(ms, m);
    SubscribesAs(c, ms, m);
    FocusMoves(c, ms, m);
    CreatedAsked(ms);
    if AsksForController(m) && Asked(ms) && !Created(ms) { IntroducesObject(m); }
  }

  lemma CreatedAsked(ms: seq<Option<Json>>)
    ensures Created(ms) ==> Asked(ms)
  {
    if Created(ms) {
      var k :| 0 <= k < |ms| && AsksForController(ms[k]) && Asked(ms[..k]);
      var j :| 0 <= j < |ms[..k]| && AsksForMouse(ms[..k][j]);
      assert ms[j] == ms[..k][j];
    }
  }

  lemma IntroducesObject(m: Option<Json>)
    ensures Introduces(m) ==> HasObject(m, 5)
  {
  }

  lemma Quiet(lib: Libm, s: State, i: Input)
    requires !i.Message?
    ensures SameGates(s.c, Next(lib, s, i).s.c)
  {
  }

  /** Over every run, whatever the device, the clock and the sensitivity do in between, the gates are a function
      of the messages received alone. */
  lemma {:induction false} GatesFollowMessages(lib: Libm, inputs: seq<Input>)
    ensures Follows(Run(lib, INITIAL, inputs).s.c, MessagesOf(inputs)) && Consistent(Run(lib, INITIAL, inputs).s)
    decreases |inputs|
  {
    hide Next;
    hide Consistent;
    hide Follows;
    if inputs == [] {
      NothingYet();
    } else {
      var front, i := inputs[..|inputs| - 1], inputs[|inputs| - 1];
      GatesFollowMessages(lib, front);
      var s, ms := Run(lib, INITIAL, front).s, MessagesOf(front);
      NextShape(lib, s, i);
      match i
      case Message(m, now, id) =>
        MessageNext(lib, s, m, now, id);
        FollowsNext(s.c, ms, m, Next(lib, s, i).s.c);
      case _ =>
        Quiet(lib, s, i);
        FollowsSame(s.c, ms, Next(lib, s, i).s.c);
        assert ms + [] == ms;
    }
  }

  lemma NothingYet()
    ensures Follows(INITIAL.c, []) && Consistent(INITIAL)
  {
  }

  lemma MessageNext(lib: Libm, s: State, m: Option<Json>, now: int, id: string)
    requires Consistent(s)
    ensures GatesAfter(s.c, m, Next(lib, s, Message(m, now, id)).s.c)
  {
    hide OnMessage;
    hide GatesAfter;
    MessageMoves(lib, s, m, now, id);
  }

  lemma FollowsSame(c: Control, ms: seq<Option<Json>>, d: Control)
    requires Follows(c, ms) && SameGates(c, d)
    ensures Follows(d, ms)
  {
    hide Created;
    hide Asked;
    hide Recognised;
    hide Announced;
    hide Subscribed;
    hide Focused;
  }

  // ----- events let in -----

  /** The device events that come while the messages so far hold the gates open. */
  ghost function Admitted(inputs: seq<Input>): seq<Event> {
    if inputs == [] then []
    else
      var front, i := inputs[..|inputs| - 1], inputs[|inputs| - 1];
      Admitted(front) + (if i.Device? && Open(MessagesOf(front)) then [i.ev] else [])
  }

  lemma OpenByFields(c: Control, ms: seq<Option<Json>>)
    requires Follows(c, ms)
    ensures Open(ms) <==> c.hs == Ready && c.known && c.subscribed && c.focus
  {
    hide Created;
    hide Asked;
    hide Recognised;
    hide Subscribed;
    hide Focused;
    hide Announced;
  }

  lemma BookedAccepts(s: State, l: Ledger, i: Input)
    ensures Booked(s, l, i).accepted ==
            if i.Device? && s.c.hs == Ready && s.c.known && s.c.subscribed && s.c.focus then l.accepted + [i.ev]
            else l.accepted
  {
    hide Choice;
  }

  /** Over every run, the events that the controller takes on are exactly those that come while the client, by
      its messages, is ready, recognised, subscribed and focused. */
  lemma {:induction false} AcceptsExactlyAdmitted(lib: Libm, inputs: seq<Input>)
    ensures Books(lib, INITIAL, inputs).accepted == Admitted(inputs)
    decreases |inputs|
  {
    hide Booked;
    hide Follows;
    hide Open;
    hide Consistent;
    hide Run;
    if inputs != [] {
      var front, i := inputs[..|inputs| - 1], inputs[|inputs| - 1];
      AcceptsExactlyAdmitted(lib, front);
      GatesFollowMessages(lib, front);
      OpenByFields(Run(lib, INITIAL, front).s.c, MessagesOf(front));
      BookedAccepts(Run(lib, INITIAL, front).s, Books(lib, INITIAL, front), i);
      assert Admitted(front) + [] == Admitted(front);
    }
  }

  // ----- the verdict and the answers -----

  /** What a message must be where the conversation stands. */
  ghost predicate Acceptable(ms: seq<Option<Json>>, m: Option<Json>) {
    && m.Some? && m.value.Arr? && |m.value.items| >= 1 && m.value.items[0].Num?
    && (Says(m, 2) ==>
          && HasString(m, 1) && HasString(m, 2)
          && (Created(ms) || if Asked(ms) then AsksForController(m) else AsksForMouse(m)))
  }

  lemma AcceptedAs(c: Control, ms: seq<Option<Json>>, m: Option<Json>)
    requires Follows(c, ms)
    ensures Accepts(c.hs, m) <==> Acceptable(ms, m)
  {
    hide Created;
    hide Asked;
    hide Recognised;
    hide Subscribed;
    hide Focused;
    hide Announced;
    hide Kind;
    KindSays(m, 2);
  }

  /** Over every run, the return code for the next message is a function of the messages received. */
  lemma VerdictFromMessages(lib: Libm, inputs: seq<Input>, m: Option<Json>)
    ensures Accepts(Run(lib, INITIAL, inputs).s.c.hs, m) <==> Acceptable(MessagesOf(inputs), m)
  {
    hide Accepts;
    hide Acceptable;
    hide Follows;
    GatesFollowMessages(lib, inputs);
    AcceptedAs(Run(lib, INITIAL, inputs).s.c, MessagesOf(inputs), m);
  }

  /** The answers among the messages sent. */
  function Answers(sent: seq<Sent>): seq<Sent> {
    if sent == [] then []
    else
      var x := sent[|sent| - 1];
      Answers(sent[..|sent| - 1]) + (if x.CallResult? || x.CallError? then [x] else [])
  }

  lemma {:induction false} AnswersConcat(a: seq<Sent>, b: seq<Sent>)
    ensures Answers(a + b) == Answers(a) + Answers(b)
  {
    if b == [] {
      assert a + b == a;
    } else {
      assert (a + b)[..|a + b| - 1] == a + b[..|b| - 1];
      AnswersConcat(a, b[..|b| - 1]);
    }
  }

  /** The answer that a message calls for, behind those received before it. */
  ghost function AnswerTo(ms: seq<Option<Json>>, m: Option<Json>): seq<Sent> {
    if !Says(m, 2) || !HasString(m, 1) || !HasString(m, 2) then []
    else
      var callId, name := m.value.items[1].s, m.value.items[2].s;
      if !Asked(ms) then
        if AsksForMouse(m) then [CallResult(callId, Obj([("connexion", Str("mouse0"))]))] else []
      else if !Created(ms) then
        if AsksForController(m) then [CallResult(callId, Obj([("instance", Str("controller0"))]))] else []
      else if StandsFor(Announced(ms), name, "wss://127.51.68.120/3dconnexion#update") then [CallResult(callId, Null)]
      else [CallError(callId, "wamp.error.not_found", AtMost("RPC '" + name + "' not registered", 255))]
  }

  ghost function AnswersTo(ms: seq<Option<Json>>): seq<Sent> {
    if ms == [] then [] else AnswersTo(ms[..|ms| - 1]) + AnswerTo(ms[..|ms| - 1], ms[|ms| - 1])
  }

  lemma AnswersOfOne(x: Sent)
    ensures Answers([x]) == if x.CallResult? || x.CallError? then [x] else []
  {
  }

  lemma NoAnswer(s: State, o: Out)
    requires o.sent == [] || (|o.sent| == 1 && o.sent[0].Rpc?)
    ensures Answers(o.sent) == []
  {
  }

  lemma FinishedSendsCalls(s: State, now: int, id: string)
    ensures var o := Finished(s, now, id); o.sent == [] || (|o.sent| == 1 && o.sent[0].Rpc?)
  {
  }

  lemma ReplySendsCalls(lib: Libm, s: State, items: seq<Json>, isError: bool, now: int, id: string)
    requires Consistent(s)
    ensures var o := OnReply(lib, s, items, isError, now, id); o.sent == [] || (|o.sent| == 1 && o.sent[0].Rpc?)
  {
    hide Advance;
    hide Finished;
    if Awaited(s.c, items) {
      var result := Item(items, 2);
      if isError {
        FinishedSendsCalls(s, now, id);
      } else {
        AdvanceShape(lib, s, result, now, id);
        if ReplyEnds(s.c, result) { FinishedSendsCalls(EndingState(s, result), now, id); }
      }
    }
  }

  lemma CallAnswered(s: State, ms: seq<Option<Json>>, m: Option<Json>)
    requires Follows(s.c, ms) && Says(m, 2) && WellFormed(m)
    ensures CallAccepted(s.c.hs, m.value.items) ==> OnCall(s, m.value.items).sent == AnswerTo(ms, m)
    ensures !CallAccepted(s.c.hs, m.value.items) ==> AnswerTo(ms, m) == []
  {
    hide Resolve;
    hide StandsFor;
    hide Announced;
    hide Created;
    hide Asked;
    hide Recognised;
    hide Subscribed;
    hide Focused;
    hide Field;
    hide KnownClient;
    CreatedAsked(ms);
    if HasString(m, 2) { ResolvesAsAnnounced(s.c.prefixes, m.value.items[2].s, UPDATE_URI); }
  }

  lemma AnswersShort(ms: seq<Option<Json>>, m: Option<Json>)
    ensures Answers(AnswerTo(ms, m)) == AnswerTo(ms, m)
  {
    hide StandsFor;
    hide Announced;
    hide Created;
    hide Asked;
    hide Says;
    if AnswerTo(ms, m) != [] { AnswersOfOne(AnswerTo(ms, m)[0]); }
  }

  lemma MessageAnswered(lib: Libm, s: State, ms: seq<Option<Json>>, m: Option<Json>, now: int, id: string)
    requires Consistent(s) && Follows(s.c, ms)
    ensures Answers(OnMessage(lib, s, m, now, id).sent) == AnswerTo(ms, m)
  {
    hide OnReply;
    hide OnCall;
    hide OnPrefix;
    hide OnSubscribe;
    hide CallAccepted;
    hide Follows;
    hide Kind;
    hide Says;
    KindSays(m, 2);
    KindSays(m, 3);
    KindSays(m, 4);
    if Says(m, 2) {
      CallAnswered(s, ms, m);
      AnswersShort(ms, m);
    } else {
      if Says(m, 3) || Says(m, 4) { ReplySendsCalls(lib, s, m.value.items, Says(m, 4), now, id); }
      NoAnswer(s, OnMessage(lib, s, m, now, id));
    }
  }

  lemma OthersUnanswered(lib: Libm, s: State, i: Input)
    requires !i.Message?
    ensures Answers(Next(lib, s, i).sent) == []
  {
    NoAnswer(s, Next(lib, s, i));
  }

  /** Over every run, each call of the client that is acceptable where the conversation stands is answered once,
      under its own id and in order; nothing else is answered. */
  lemma {:induction false} EveryCallAnswered(lib: Libm, inputs: seq<Input>)
    ensures Answers(Run(lib, INITIAL, inputs).sent) == AnswersTo(MessagesOf(inputs))
    decreases |inputs|
  {
    hide Next;
    hide Follows;
    hide Consistent;
    hide AnswerTo;
    if inputs != [] {
      var front, i := inputs[..|inputs| - 1], inputs[|inputs| - 1];
      EveryCallAnswered(lib, front);
      GatesFollowMessages(lib, front);
      var before, ms := Run(lib, INITIAL, front), MessagesOf(front);
      AnswersConcat(before.sent, Next(lib, before.s, i).sent);
      match i
      case Message(m, now, id) =>
        MessageStep(lib, before.s, ms, m, now, id);
        Fronts(ms, m, |ms|);
      case _ =>
        OthersUnanswered(lib, before.s, i);
        assert ms + [] == ms;
    }
  }

  lemma MessageStep(lib: Libm, s: State, ms: seq<Option<Json>>, m: Option<Json>, now: int, id: string)
    requires Consistent(s) && Follows(s.c, ms)
    ensures Answers(Next(lib, s, Message(m, now, id)).sent) == AnswerTo(ms, m)
  {
    hide OnMessage;
    hide AnswerTo;
    hide Follows;
    MessageAnswered(lib, s, ms, m, now, id);
  }

  // ----- sensitivity -----

  /** The last setting from a hundredth to ten, or the setting that a connection starts with. */
  function LastSetting(inputs: seq<Input>): real {
    if inputs == [] then 0.35
    else if inputs[|inputs| - 1].Sensitivity? && 0.01 <= inputs[|inputs| - 1].value <= 10.0 then
      inputs[|inputs| - 1].value
    else LastSetting(inputs[..|inputs| - 1])
  }

  lemma MessageKeepsSensitivity(lib: Libm, s: State, m: Option<Json>, now: int, id: string)
    requires Consistent(s)
    ensures OnMessage(lib, s, m, now, id).s.c.sens == s.c.sens
  {
    hide OnReply;
    hide OnCall;
    hide Resolve;
    hide CallAccepted;
    if Accepts(s.c.hs, m) {
      var items, kind := m.value.items, Kind(m);
      if kind == WAMP_CALL { CallKeepsSensitivity(s, items); }
      if kind == WAMP_CALLRESULT || kind == WAMP_CALLERROR {
        ReplyGates(lib, s, items, kind == WAMP_CALLERROR, now, id);
      }
    }
  }

  lemma CallKeepsSensitivity(s: State, items: seq<Json>)
    requires CallAccepted(s.c.hs, items)
    ensures OnCall(s, items).s.c.sens == s.c.sens
  {
    hide Resolve;
    hide Field;
    hide KnownClient;
    hide Take;
  }

  /** Over every run the sensitivity is the last one set within its bounds. */
  lemma {:induction false} SensitivityOverRuns(lib: Libm, inputs: seq<Input>)
    ensures Run(lib, INITIAL, inputs).s.c.sens == LastSetting(inputs)
    decreases |inputs|
  {
    hide OnMessage;
    if inputs != [] {
      var front, i := inputs[..|inputs| - 1], inputs[|inputs| - 1];
      SensitivityOverRuns(lib, front);
      NothingYet();
      RunConsistent(lib, INITIAL, front);
      if i.Message? { MessageKeepsSensitivity(lib, Run(lib, INITIAL, front).s, i.json, i.now, i.id); }
    }
  }
}
