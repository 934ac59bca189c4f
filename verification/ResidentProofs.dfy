/** What every interleaving of the resident keeps. */
module ResidentProofs {
  import opened Text
  import opened Resident

  // ---------- the invariant of all runs ----------

  /** An engine's pipe carries at most the request whose call holds its lock, and it is only
      ever closed with nothing on the pipe. */
  ghost predicate EngineOk(s: State, e: EngineId)
    requires e in s.engines
  {
    var x := s.engines[e];
    && x.outstanding == (match x.mu case Some(r) => {r} case None => {})
    && (x.mu.Some? ==> x.mu.value in s.requests && s.requests[x.mu.value].call.Sent?
                       && s.requests[x.mu.value].call.eng == e)
    && (x.closed ==> x.mu == None && x.started < x.closedAt < s.now)
    && x.started < s.now
  }

  ghost predicate CallOk(s: State, r: RequestId)
    requires r in s.requests
  {
    match s.requests[r].call
    case Idle => true
    case Locking(e) => e in s.engines
    case Sent(e, at) => e in s.engines && s.engines[e].mu == Some(r) && s.engines[e].started < at < s.now
    case Done(e, ok, at, end) =>
      && e in s.engines && at <= end < s.now
      && (ok ==> s.engines[e].started < at < end && (s.engines[e].closed ==> end < s.engines[e].closedAt))
  }

  ghost predicate PhaseOk(s: State, r: RequestId)
    requires r in s.requests
  {
    var q := s.requests[r];
    && (s.one == Some(r) <==> q.phase.Holding?)
    && match q.phase
       case Queued(e) => e in s.engines && q.call == Idle
       case Holding(e) => !q.call.Idle? && q.call.eng == e
       case Replied(ok) => ok ==> q.call.Done? && q.call.ok
  }

  ghost predicate ActionOk(s: State, a: Action) {
    match a
    case QuiesceDrain(e) => e.Some? ==> e.value in s.engines
    case QuiesceClose(e) => e.Some? ==> e.value in s.engines
    case CloseEngine(e) => e.Some? ==> e.value in s.engines
    case Attach(e, _) => e in s.engines
    case _ => true
  }

  ghost predicate Inv(s: State) {
    && (forall e :: e in s.engines ==> EngineOk(s, e))
    && (forall r :: r in s.requests ==> CallOk(s, r))
    && (forall r :: r in s.requests ==> PhaseOk(s, r))
    && (forall a :: a in s.actions ==> ActionOk(s, s.actions[a]))
    && (s.engine.Some? ==> s.engine.value in s.engines)
    && (s.one.Some? ==> s.one.value in s.requests)
  }

  // An engine, a call or a phase that a step leaves alone stays in order.

  lemma EngineFrame(s: State, t: State, e: EngineId)
    requires e in s.engines && e in t.engines && EngineOk(s, e)
    requires t.engines[e] == s.engines[e] && s.now <= t.now
    requires var mu := s.engines[e].mu;
             mu.Some? && mu.value in s.requests ==>
               mu.value in t.requests && t.requests[mu.value].call == s.requests[mu.value].call
    ensures EngineOk(t, e)
  {
  }

  /** The engines keep their ids and starts; one that is newly closed was idle. */
  ghost predicate Grown(s: State, t: State) {
    && s.now < t.now
    && (forall e :: e in s.engines ==> e in t.engines && t.engines[e].started == s.engines[e].started)
    && (forall e :: e in t.engines && e !in s.engines ==> t.engines[e].started == s.now && !t.engines[e].closed)
    && (forall e :: e in s.engines && s.engines[e].closed ==>
         t.engines[e].closed && t.engines[e].closedAt == s.engines[e].closedAt)
    && (forall e :: e in s.engines && t.engines[e].closed && !s.engines[e].closed ==> t.engines[e].closedAt == s.now)
  }

  lemma CallFrame(s: State, t: State, r: RequestId)
    requires r in s.requests && r in t.requests && CallOk(s, r)
    requires t.requests[r].call == s.requests[r].call && Grown(s, t)
    requires var c := s.requests[r].call;
             c.Sent? && c.eng in s.engines ==> c.eng in t.engines && t.engines[c.eng].mu == s.engines[c.eng].mu
    ensures CallOk(t, r)
  {
  }

  lemma PhaseFrame(s: State, t: State, r: RequestId)
    requires r in s.requests && r in t.requests && PhaseOk(s, r)
    requires t.requests[r] == s.requests[r] && Grown(s, t)
    requires t.one == Some(r) <==> s.one == Some(r)
    ensures PhaseOk(t, r)
  {
  }

  lemma ActionFrame(s: State, t: State, a: Action)
    requires ActionOk(s, a) && Grown(s, t)
    ensures ActionOk(t, a)
  {
  }

  /** A step touches one request, and at most one engine, that the request's own call holds or
      finds free. */
  ghost predicate Touches(s: State, t: State, r: RequestId, own: Option<EngineId>) {
    && Grown(s, t) && t.actions == s.actions && t.engine == s.engine
    && t.quiesced == s.quiesced && t.closed == s.closed && t.serving == s.serving
    && r in t.requests && t.requests == s.requests[r := t.requests[r]]
    && t.engines.Keys == s.engines.Keys
    && (forall e :: e in s.engines ==> t.engines[e].closed == s.engines[e].closed)
    && (forall e :: e in s.engines && own != Some(e) ==> t.engines[e] == s.engines[e])
    && (own.Some? ==> own.value in s.engines && (s.engines[own.value].mu == None || s.engines[own.value].mu == Some(r)))
    && (r in s.requests && s.requests[r].call.Sent? ==>
          t.requests[r].call == s.requests[r].call || own == Some(s.requests[r].call.eng))
    && (forall q :: q in s.requests && q != r ==> (t.one == Some(q) <==> s.one == Some(q)))
    && (t.one.Some? ==> t.one.value in t.requests)
  }

  lemma TouchKeepsInv(s: State, t: State, r: RequestId, own: Option<EngineId>)
    requires Inv(s) && Touches(s, t, r, own)
    requires CallOk(t, r) && PhaseOk(t, r) && (own.Some? ==> EngineOk(t, own.value))
    ensures Inv(t)
  {
    forall e | e in t.engines ensures EngineOk(t, e) {
      if own != Some(e) { assert EngineOk(s, e); EngineFrame(s, t, e); }
    }
    forall q | q in t.requests ensures CallOk(t, q) && PhaseOk(t, q) {
      if q != r {
        assert CallOk(s, q) && PhaseOk(s, q);
        CallFrame(s, t, q);
        PhaseFrame(s, t, q);
      }
    }
    forall a | a in t.actions ensures ActionOk(t, t.actions[a]) { ActionFrame(s, t, t.actions[a]); }
  }

  lemma PlainTouches(s: State, step: Step)
    requires Enabled(s, step) && (step.Arrive? || step.TakeOne? || step.Timeout? || step.Collect?)
    requires step.r in s.requests ==> PhaseOk(s, step.r) && CallOk(s, step.r)
    requires s.one.Some? ==> s.one.value in s.requests
    requires s.engine.Some? ==> s.engine.value in s.engines
    ensures var t := Next(s, step); Touches(s, t, step.r, None) && CallOk(t, step.r) && PhaseOk(t, step.r)
  {
  }

  /** A step of `serveConn` changes one request and the serial slot. */
  lemma InvRequestStep(s: State, step: Step)
    requires Inv(s) && Enabled(s, step) && (step.Arrive? || step.TakeOne? || step.Timeout? || step.Collect?)
    ensures Inv(Next(s, step))
  {
    hide Next, Touches, CallOk, PhaseOk, EngineOk, Enabled;
    PlainTouches(s, step);
    TouchKeepsInv(s, Next(s, step), step.r, None);
  }

  ghost predicate Follows(s: State, c: Call, r: RequestId, x: Engine)
    requires !c.Idle? && c.eng in s.engines
  {
    var was := s.engines[c.eng];
    && x.started == was.started && x.closed == was.closed && x.closedAt == was.closedAt
    && (if c.Sent? then x.mu == Some(r) && x.outstanding == {r} && !x.closed && was.started < c.at <= s.now
        else x.mu == None && x.outstanding == {})
    && (c.Done? ==> c.sentAt <= c.doneAt <= s.now
                    && (c.ok ==> was.started < c.sentAt < c.doneAt && (x.closed ==> c.doneAt < x.closedAt)))
  }

  lemma AdvanceTouches(s: State, r: RequestId, c: Call, x: Engine)
    requires r in s.requests && !s.requests[r].call.Idle? && !c.Idle? && s.requests[r].call.eng == c.eng
    requires c.eng in s.engines
    requires s.engines[c.eng].mu == None || s.engines[c.eng].mu == Some(r)
    requires Follows(s, c, r, x) && EngineOk(s, c.eng) && PhaseOk(s, r)
    requires s.requests[r].phase.Replied? && s.requests[r].phase.ok ==> c.Done? && c.ok
    requires s.one.Some? ==> s.one.value in s.requests
    ensures var t := Advance(s, r, c, x).(now := s.now + 1);
            Touches(s, t, r, Some(c.eng)) && CallOk(t, r) && PhaseOk(t, r) && EngineOk(t, c.eng)
  {
  }

  lemma LockTouches(s: State, r: RequestId, written: bool)
    requires Enabled(s, Lock(r, written))
    requires EngineOk(s, s.requests[r].call.eng) && CallOk(s, r) && PhaseOk(s, r)
    requires s.one.Some? ==> s.one.value in s.requests
    ensures var t, own := Next(s, Lock(r, written)), s.requests[r].call.eng;
            Touches(s, t, r, Some(own)) && CallOk(t, r) && PhaseOk(t, r) && EngineOk(t, own)
  {
    hide Touches;
    var e := s.requests[r].call.eng;
    var x := s.engines[e];
    if x.dead || x.closed {
      AdvanceTouches(s, r, Done(e, false, s.now, s.now), x);
    } else if !written {
      AdvanceTouches(s, r, Done(e, false, s.now, s.now), x.(dead := true));
    } else {
      AdvanceTouches(s, r, Sent(e, s.now), x.(mu := Some(r), outstanding := x.outstanding + {r}));
    }
  }

  lemma FinishTouches(s: State, r: RequestId, ok: bool, died: bool)
    requires r in s.requests && s.requests[r].call.Sent? && s.requests[r].call.eng in s.engines
    requires EngineOk(s, s.requests[r].call.eng) && CallOk(s, r) && PhaseOk(s, r)
    requires s.one.Some? ==> s.one.value in s.requests
    ensures var t, own := Finish(s, r, ok, died).(now := s.now + 1), s.requests[r].call.eng;
            Touches(s, t, r, Some(own)) && CallOk(t, r) && PhaseOk(t, r) && EngineOk(t, own)
  {
    hide Touches;
    var c := s.requests[r].call;
    var x := s.engines[c.eng];
    AdvanceTouches(s, r, Done(c.eng, ok, c.at, s.now),
      x.(mu := None, outstanding := x.outstanding - {r}, dead := x.dead || died));
  }

  /** A step of a call changes its request and the engine whose lock it takes or holds. */
  lemma InvParts(s: State, r: RequestId)
    requires Inv(s) && r in s.requests && !s.requests[r].call.Idle?
    ensures s.requests[r].call.eng in s.engines && (s.one.Some? ==> s.one.value in s.requests)
    ensures EngineOk(s, s.requests[r].call.eng) && CallOk(s, r) && PhaseOk(s, r)
  {
    hide EngineOk, PhaseOk;
    assert CallOk(s, r);
  }

  lemma CallStepTouches(s: State, step: Step)
    requires Inv(s) && Enabled(s, step) && (step.Lock? || step.Answer? || step.Die?)
    ensures var t, r := Next(s, step), step.r;
            var own := s.requests[r].call.eng;
            Touches(s, t, r, Some(own)) && CallOk(t, r) && PhaseOk(t, r) && EngineOk(t, own)
  {
    hide EngineOk, CallOk, PhaseOk, Touches, Inv;
    var r := step.r;
    InvParts(s, r);
    match step {
      case Lock(_, written) => LockTouches(s, r, written);
      case Answer(_, ok) => FinishTouches(s, r, ok, false);
      case Die(_) => FinishTouches(s, r, false, true);
      case _ =>
    }
  }

  lemma InvCallStep(s: State, step: Step)
    requires Inv(s) && Enabled(s, step) && (step.Lock? || step.Answer? || step.Die?)
    ensures Inv(Next(s, step))
  {
    hide EngineOk, CallOk, PhaseOk, Touches, Next;
    CallStepTouches(s, step);
    TouchKeepsInv(s, Next(s, step), step.r, Some(s.requests[step.r].call.eng));
  }

  /** A control action leaves the requests and their slot alone, and closes only idle engines. */
  ghost predicate Controls(s: State, t: State, a: ActionId) {
    && Grown(s, t) && t.requests == s.requests && t.one == s.one
    && (forall e :: e in s.engines ==>
         t.engines[e].mu == s.engines[e].mu && t.engines[e].outstanding == s.engines[e].outstanding)
    && (forall e :: e in t.engines && (e !in s.engines || t.engines[e] != s.engines[e]) ==>
          t.engines[e].mu == None && t.engines[e].outstanding == {} && t.engines[e].started <= s.now
          && (t.engines[e].closed ==> t.engines[e].started < t.engines[e].closedAt <= s.now))
    && (t.engine.Some? ==> t.engine.value in t.engines)
    && (forall b :: b in t.actions && b != a ==> b in s.actions && t.actions[b] == s.actions[b])
    && (a in t.actions ==> ActionOk(t, t.actions[a]))
  }

  lemma ControlsKeepsInv(s: State, t: State, a: ActionId)
    requires Inv(s) && Controls(s, t, a)
    ensures Inv(t)
  {
    forall e | e in t.engines ensures EngineOk(t, e) {
      if e in s.engines && t.engines[e] == s.engines[e] { assert EngineOk(s, e); EngineFrame(s, t, e); }
    }
    forall q | q in t.requests ensures CallOk(t, q) && PhaseOk(t, q) {
      assert CallOk(s, q) && PhaseOk(s, q);
      CallFrame(s, t, q);
      PhaseFrame(s, t, q);
    }
    forall b | b in t.actions ensures ActionOk(t, t.actions[b]) {
      if b != a { assert ActionOk(s, s.actions[b]); ActionFrame(s, t, s.actions[b]); }
    }
  }

  lemma QuietControls(s: State, t: State, a: ActionId)
    requires t == s.(now := s.now + 1, actions := t.actions, engine := t.engine, quiesced := t.quiesced,
                     closed := t.closed, serving := t.serving)
    requires forall b :: b in t.actions && b != a ==> b in s.actions && t.actions[b] == s.actions[b]
    requires a in t.actions ==> ActionOk(t, t.actions[a])
    requires t.engine.Some? ==> t.engine.value in s.engines
    ensures Controls(s, t, a)
  {
  }

  lemma BeginQuiet(s: State, a: ActionId, kind: Kind)
    requires a !in s.actions && (s.engine.Some? ==> s.engine.value in s.engines)
    ensures Controls(s, BeginAction(s, a, kind).(now := s.now + 1), a)
  {
    hide Controls;
    QuietControls(s, BeginAction(s, a, kind).(now := s.now + 1), a);
  }

  lemma BeginControls(s: State, a: ActionId, kind: Kind)
    requires Inv(s) && Enabled(s, Begin(a, kind))
    ensures Controls(s, Next(s, Begin(a, kind)), a)
  {
    hide CallOk, PhaseOk, EngineOk, ActionOk, Controls, BeginAction;
    BeginQuiet(s, a, kind);
  }

  lemma CloseControls(s: State, t: State, a: ActionId, e: Option<EngineId>)
    requires e.Some? ==> CanClose(s, e.value) && EngineOk(s, e.value)
    requires var u := if e.Some? then CloseChild(s, e.value) else s;
             t == u.(now := s.now + 1, actions := t.actions)
    requires forall b :: b in t.actions && b != a ==> b in s.actions && t.actions[b] == s.actions[b]
    requires a in t.actions ==> t.actions[a].QuiesceDetach?
    requires s.engine.Some? ==> s.engine.value in s.engines
    ensures Controls(s, t, a)
  {
  }

  lemma StartControls(s: State, a: ActionId, born: Option<EngineId>)
    requires Enabled(s, Proceed(a, born)) && s.actions[a].Start?
    requires s.engine.Some? ==> s.engine.value in s.engines
    ensures Controls(s, Next(s, Proceed(a, born)), a)
  {
    if born == None { StartFails(s, a); } else { StartSucceeds(s, a, born.value); }
  }

  lemma StartFails(s: State, a: ActionId)
    requires Enabled(s, Proceed(a, None)) && s.actions[a].Start?
    requires s.engine.Some? ==> s.engine.value in s.engines
    ensures Controls(s, Next(s, Proceed(a, None)), a)
  {
  }

  lemma StartSucceeds(s: State, a: ActionId, e: EngineId)
    requires Enabled(s, Proceed(a, Some(e))) && s.actions[a].Start?
    requires s.engine.Some? ==> s.engine.value in s.engines
    ensures Controls(s, Next(s, Proceed(a, Some(e))), a)
  {
  }

  lemma ProceedClose(s: State, a: ActionId, born: Option<EngineId>)
    requires Enabled(s, Proceed(a, born)) && (s.actions[a].QuiesceClose? || s.actions[a].CloseEngine?)
    requires s.actions[a].eng.Some? ==> s.actions[a].eng.value in s.engines && EngineOk(s, s.actions[a].eng.value)
    requires s.engine.Some? ==> s.engine.value in s.engines
    ensures Controls(s, Next(s, Proceed(a, born)), a)
  {
    hide EngineOk, Controls;
    CloseControls(s, Next(s, Proceed(a, born)), a, s.actions[a].eng);
  }

  lemma MoveControls(s: State, u: State, a: ActionId, x: Action)
    requires a in s.actions
    requires u == s.(engine := u.engine, quiesced := u.quiesced, closed := u.closed, serving := u.serving)
    requires u.engine.Some? ==> u.engine.value in s.engines
    requires ActionOk(u, x)
    ensures Controls(s, SetAction(u, a, x).(now := s.now + 1), a)
  {
    hide Controls;
    QuietControls(s, SetAction(u, a, x).(now := s.now + 1), a);
  }

  lemma EndControls(s: State, u: State, a: ActionId)
    requires a in s.actions
    requires u == s.(engine := u.engine, quiesced := u.quiesced, closed := u.closed, serving := u.serving)
    requires u.engine.Some? ==> u.engine.value in s.engines
    ensures Controls(s, EndAction(u, a).(now := s.now + 1), a)
  {
    hide Controls;
    QuietControls(s, EndAction(u, a).(now := s.now + 1), a);
  }

  lemma ProceedQuiet(s: State, a: ActionId, born: Option<EngineId>)
    requires Enabled(s, Proceed(a, born)) && ActionOk(s, s.actions[a])
    requires !s.actions[a].QuiesceClose? && !s.actions[a].CloseEngine? && !s.actions[a].Start?
    requires s.engine.Some? ==> s.engine.value in s.engines
    ensures Controls(s, ProceedAction(s, a, born).(now := s.now + 1), a)
  {
    hide CloseChild, Controls, SetEngine, SetAction, EndAction;
    match s.actions[a] {
      case QuiesceDrain(e) => MoveControls(s, s, a, QuiesceClose(e));
      case QuiesceDetach => EndControls(s, s.(engine := None), a);
      case Attach(e, resume) =>
        if resume { MoveControls(s, s.(engine := Some(e)), a, Unquiesce); }
        else { EndControls(s, s.(engine := Some(e), serving := true), a); }
      case Unquiesce => EndControls(s, s.(quiesced := false), a);
      case _ =>
    }
  }

  lemma ProceedControls(s: State, a: ActionId, born: Option<EngineId>)
    requires Enabled(s, Proceed(a, born)) && ActionOk(s, s.actions[a])
    requires forall e :: e in s.engines ==> EngineOk(s, e)
    requires s.engine.Some? ==> s.engine.value in s.engines
    ensures Controls(s, Next(s, Proceed(a, born)), a)
  {
    if s.actions[a].QuiesceClose? || s.actions[a].CloseEngine? {
      hide EngineOk, Controls, Apply, Next;
      ProceedClose(s, a, born);
    } else if s.actions[a].Start? {
      hide EngineOk, Controls, Apply, Next;
      StartControls(s, a, born);
    } else {
      hide EngineOk, Controls, ProceedAction;
      ProceedQuiet(s, a, born);
    }
  }

  lemma InvControlStep(s: State, step: Step)
    requires Inv(s) && Enabled(s, step) && (step.Begin? || step.Proceed?)
    ensures Inv(Next(s, step))
  {
    match step {
      case Begin(a, kind) => BeginControls(s, a, kind);
      case Proceed(a, born) => assert ActionOk(s, s.actions[a]); ProceedControls(s, a, born);
      case _ =>
    }
    hide Controls, Next, Apply;
    ControlsKeepsInv(s, Next(s, step), step.a);
  }

  lemma NextKeepsInv(s: State, step: Step)
    requires Inv(s) && Enabled(s, step)
    ensures Inv(Next(s, step))
  {
    hide Inv, Enabled, Next;
    match step {
      case Lock(_, _) => InvCallStep(s, step);
      case Answer(_, _) => InvCallStep(s, step);
      case Die(_) => InvCallStep(s, step);
      case Begin(_, _) => InvControlStep(s, step);
      case Proceed(_, _) => InvControlStep(s, step);
      case _ => InvRequestStep(s, step);
    }
  }

  lemma {:induction false} RunKeepsInv(steps: seq<Step>)
    requires Run(steps).Some?
    ensures Inv(Run(steps).value) && Run(steps).value.now == |steps|
    decreases |steps|
  {
    if steps != [] {
      hide Enabled, Apply, Inv;
      var last := |steps| - 1;
      RunKeepsInv(steps[..last]);
      NextKeepsInv(Run(steps[..last]).value, steps[last]);
    }
  }

  /** At most one request is ever on an engine's pipe, and it is the one whose call holds the
      engine's lock, whether or not its caller gave up waiting.  A closed engine has none. */
  lemma OneOutstanding(steps: seq<Step>, e: EngineId)
    requires Run(steps).Some? && e in Run(steps).value.engines
    ensures var s := Run(steps).value;
            var x := s.engines[e];
            && |x.outstanding| <= 1
            && (forall r :: r in x.outstanding <==>
                 r in s.requests && s.requests[r].call.Sent? && s.requests[r].call.eng == e)
            && (x.closed ==> x.outstanding == {})
  {
    hide Run;
    RunKeepsInv(steps);
    var s := Run(steps).value;
    assert EngineOk(s, e);
    forall r | r in s.requests && s.requests[r].call.Sent? && s.requests[r].call.eng == e
      ensures r in s.engines[e].outstanding
    {
      assert CallOk(s, r);
    }
  }

  /** The caller of `r` was told that its call failed, and the call is still on the engine's pipe. */
  predicate LeftBehind(s: State, r: RequestId, e: EngineId) {
    r in s.requests && s.requests[r].phase == Replied(false) && s.requests[r].call.Sent? && s.requests[r].call.eng == e
  }

  /** With the serial slot free, an engine's pipe is empty exactly when no call on it was abandoned:
      taking the slot alone does not drain the engine. */
  lemma DrainIsExact(steps: seq<Step>, e: EngineId)
    requires Run(steps).Some? && e in Run(steps).value.engines && Run(steps).value.one == None
    ensures var s := Run(steps).value; s.engines[e].outstanding == {} <==> !exists r :: LeftBehind(s, r, e)
  {
    hide Run, Inv;
    OneOutstanding(steps, e);
    RunKeepsInv(steps);
    var s := Run(steps).value;
    forall r ensures LeftBehind(s, r, e) <==> r in s.engines[e].outstanding {
      if r in s.requests && s.requests[r].call.Sent? { FreeSlot(s, r); }
    }
    if x :| x in s.engines[e].outstanding { assert LeftBehind(s, x, e); }
  }

  lemma FreeSlot(s: State, r: RequestId)
    requires Inv(s) && s.one == None && r in s.requests && s.requests[r].call.Sent?
    ensures s.requests[r].phase == Replied(false)
  {
    assert PhaseOk(s, r);
    hide EngineOk, CallOk;
  }
}
