/** Whole runs of the controller object: the laws of the state machine are laws of what the object sends. */
module ControllerRuns {
  import opened Bytes
  import opened GramSchmidt
  import opened Wamp
  import opened Protocol
  import opened ControllerCode
  import opened Runs
  import opened RunLaws
  import opened RunSafety
  import opened GateLaws

  lemma InitialIsConsistent()
    ensures Consistent(INITIAL) && INITIAL.c.chain == NoChain && INITIAL.c.hs == WaitMouse
  {
  }

  lemma RunSnoc(lib: Libm, s: State, inputs: seq<Input>, n: nat)
    requires n < |inputs|
    ensures var before := Run(lib, s, inputs[..n]);
            var o := Next(lib, before.s, inputs[n]);
            Run(lib, s, inputs[..n + 1]) == Out(o.s, before.sent + o.sent)
  {
    hide Next;
    assert inputs[..n + 1][..n] == inputs[..n];
  }

  /** One input, through the method that takes it. */
  method Feed(c: Controller, i: Input)
    requires c.Valid()
    modifies c, c.modelExtents, c.currAffine, c.newAffine, c.viewExtents
    ensures c.Became(Next(c.lib, old(c.State()), i))
  {
    hide OnMessage;
    hide OnDevice;
    hide OnSensitivity;
    match i
    case Message(json, now, id) => var rc := c.OnMessage(json, now, id);
    case Device(ev, now, id) => c.OnSpnavEvent(ev, now, id);
    case Sensitivity(x) => var rc := c.SetSensitivity(x);
  }

  /** A new controller object that is fed any inputs is where the run of the state machine ends, and has
      sent its greeting and then what the run sends. */
  method Drive(lib: Libm, session: string, inputs: seq<Input>) returns (c: Controller)
    ensures fresh(c) && c.Valid() && c.lib == lib
    ensures c.State() == Run(lib, INITIAL, inputs).s
    ensures c.sent == [Welcome(session)] + Run(lib, INITIAL, inputs).sent
  {
    hide Next;
    c := new Controller(lib, session);
    ghost var s0 := c.State();
    StartsEmpty(lib, s0, [Welcome(session)]);
    assert inputs[..0] == [];
    for n := 0 to |inputs|
      invariant c.Valid() && c.lib == lib && fresh(c)
      invariant fresh(c.modelExtents) && fresh(c.currAffine) && fresh(c.newAffine) && fresh(c.viewExtents)
      invariant c.State() == Run(lib, s0, inputs[..n]).s
      invariant c.sent == [Welcome(session)] + Run(lib, s0, inputs[..n]).sent
    {
      RunSnoc(lib, s0, inputs, n);
      Associates([Welcome(session)], Run(lib, s0, inputs[..n]).sent, Next(lib, c.State(), inputs[n]).sent);
      Feed(c, inputs[n]);
    }
    assert inputs[..|inputs|] == inputs;
  }

  lemma StartsEmpty(lib: Libm, s: State, sent: seq<Sent>)
    ensures Run(lib, s, []).s == s && sent + Run(lib, s, []).sent == sent
  {
  }

  lemma GreetingIsNoCall(session: string, sent: seq<Sent>)
    ensures Calls([Welcome(session)] + sent) == Calls(sent)
  {
    CallsOfOne(Welcome(session));
    CallsConcat([Welcome(session)], sent);
    assert [] + Calls(sent) == Calls(sent);
  }

  lemma GreetingIsNoAnswer(session: string, sent: seq<Sent>)
    ensures Answers([Welcome(session)] + sent) == Answers(sent)
  {
    AnswersOfOne(Welcome(session));
    AnswersConcat([Welcome(session)], sent);
    assert [] + Answers(sent) == Answers(sent);
  }

  /** What a controller object has sent, over any inputs: calls that are prefixes of the three scripts, the last
      one as far as the object's chain and step say, and no more than its accepted events allow; and one answer
      to each acceptable call of the client. Its gates stand as the client's messages say. */
  method DriveByTheLaws(lib: Libm, session: string, inputs: seq<Input>)
    returns (c: Controller, ghost segs: seq<seq<Call>>)
    ensures c.Valid() && Consistent(c.State())
    ensures Segmented(segs, Calls(c.sent), c.State(), Books(lib, INITIAL, inputs).started,
                      Cameras(lib, INITIAL, inputs))
    ensures Mirrors(c.State(), Books(lib, INITIAL, inputs))
    ensures |Calls(c.sent)| <= Allowance(Books(lib, INITIAL, inputs).started)
    ensures Follows(c.State().c, MessagesOf(inputs)) && Answers(c.sent) == AnswersTo(MessagesOf(inputs))
  {
    hide Segmented;
    hide Mirrors;
    hide Consistent;
    hide Run;
    hide Books;
    hide Cameras;
    hide Follows;
    c := Drive(lib, session, inputs);
    InitialIsConsistent();
    GreetingIsNoCall(session, Run(lib, INITIAL, inputs).sent);
    segs := Grammar(lib, INITIAL, inputs);
    CoalescingRefines(lib, INITIAL, inputs);
    AmplificationBound(lib, INITIAL, inputs);
    GatesFollowMessages(lib, inputs);
    EveryCallAnswered(lib, inputs);
    GreetingIsNoAnswer(session, Run(lib, INITIAL, inputs).sent);
  }
}
