/** What each reply goes back to: over any run, the steps that settled it (internal/resident/server.go). */
module ResidentReplies {
  import opened Text
  import opened Resident
  import opened ResidentProofs
  import opened ResidentRuns

  // ---------- what can settle a request ----------

  /** The resident takes requests, and `e` is the engine that gets them. */
  predicate Takes(s: State, e: EngineId) { !s.closed && !s.quiesced && s.engine == Some(e) }

  /** Step `i` is the arrival of `r`, at a resident that takes no requests. */
  predicate RefusedAt(steps: seq<Step>, i: nat, r: RequestId) {
    && i < |steps| && steps[i] == Arrive(r) && Run(steps[..i]).Some?
    && var s := Run(steps[..i]).value; s.closed || s.quiesced || s.engine == None
  }

  /** Step `i` is the arrival of `r`, at a resident whose engine `e` gets it. */
  predicate TakenAt(steps: seq<Step>, i: nat, r: RequestId, e: EngineId) {
    i < |steps| && steps[i] == Arrive(r) && Run(steps[..i]).Some? && Takes(Run(steps[..i]).value, e)
  }

  ghost predicate TakenBy(steps: seq<Step>, r: RequestId, e: EngineId) { exists i: nat :: TakenAt(steps, i, r, e) }

  /** The engine of the call of `r` is dead or closed. */
  predicate Unusable(s: State, r: RequestId) {
    && r in s.requests && s.requests[r].call.Locking? && s.requests[r].call.eng in s.engines
    && var x := s.engines[s.requests[r].call.eng]; x.dead || x.closed
  }

  /** Step `j` ended the call of `r`: with the engine's own answer, or without a result because the engine
      died, could not be written to, or was dead or closed before. */
  predicate EndedAt(steps: seq<Step>, j: nat, r: RequestId, ok: bool) {
    j < |steps| && Run(steps[..j]).Some? &&
    match steps[j]
    case Answer(q, answer) => q == r && ok == answer
    case Die(q) => q == r && !ok
    case Lock(q, written) => q == r && !ok && (!written || Unusable(Run(steps[..j]).value, r))
    case _ => false
  }

  ghost predicate Ended(steps: seq<Step>, r: RequestId, ok: bool) { exists j: nat :: EndedAt(steps, j, r, ok) }

  /** Step `i` settled `r`: a refusal on arrival, a timeout, or the outcome of its own call. */
  ghost predicate SettledAt(steps: seq<Step>, i: nat, r: RequestId, ok: bool) {
    i < |steps| &&
    match steps[i]
    case Arrive(_) => !ok && RefusedAt(steps, i, r)
    case Timeout(q) => q == r && !ok
    case Collect(q) => q == r && Ended(steps[..i], r, ok)
    case _ => false
  }

  ghost predicate Settled(steps: seq<Step>, r: RequestId, ok: bool) { exists i: nat :: SettledAt(steps, i, r, ok) }

  ghost predicate PhaseExplained(steps: seq<Step>, r: RequestId, p: Phase) {
    match p
    case Queued(e) => TakenBy(steps, r, e)
    case Holding(e) => TakenBy(steps, r, e)
    case Replied(ok) => Settled(steps, r, ok)
  }

  ghost predicate CallExplained(steps: seq<Step>, r: RequestId, c: Call) {
    && (!c.Idle? ==> TakenBy(steps, r, c.eng))
    && (c.Done? ==> Ended(steps, r, c.ok))
  }

  ghost predicate RequestExplained(steps: seq<Step>, r: RequestId, q: Request) {
    PhaseExplained(steps, r, q.phase) && CallExplained(steps, r, q.call)
  }

  ghost predicate Explained(steps: seq<Step>, r: RequestId)
    requires Run(steps).Some? && r in Run(steps).value.requests
  {
    RequestExplained(steps, r, Run(steps).value.requests[r])
  }

  // ---------- more steps change nothing of that ----------

  lemma Later(steps: seq<Step>, r: RequestId)
    requires steps != []
    ensures var init := steps[..|steps| - 1];
            && (forall e :: TakenBy(init, r, e) ==> TakenBy(steps, r, e))
            && (forall ok :: Ended(init, r, ok) ==> Ended(steps, r, ok))
            && (forall ok :: Settled(init, r, ok) ==> Settled(steps, r, ok))
  {
    hide Run;
    var init := steps[..|steps| - 1];
    forall i: nat | i < |init| ensures init[..i] == steps[..i] && init[i] == steps[i] {}
    forall e | TakenBy(init, r, e) ensures TakenBy(steps, r, e) {
      var i: nat :| TakenAt(init, i, r, e);
      assert TakenAt(steps, i, r, e);
    }
    forall ok | Ended(init, r, ok) ensures Ended(steps, r, ok) {
      var j: nat :| EndedAt(init, j, r, ok);
      assert EndedAt(steps, j, r, ok);
    }
    forall ok | Settled(init, r, ok) ensures Settled(steps, r, ok) {
      var i: nat :| SettledAt(init, i, r, ok);
      assert SettledAt(steps, i, r, ok);
    }
  }

  lemma ExplainedLater(steps: seq<Step>, r: RequestId, q: Request)
    requires steps != []
    requires RequestExplained(steps[..|steps| - 1], r, q)
    ensures RequestExplained(steps, r, q)
  {
    Later(steps, r);
    hide TakenBy, Ended, Settled;
  }

  // ---------- one step ----------

  /** What the last step of the run does to the request it names. */
  lemma StepExplains(steps: seq<Step>, s: State, r: RequestId)
    requires steps != [] && Run(steps[..|steps| - 1]) == Some(s) && Enabled(s, steps[|steps| - 1])
    requires r in s.requests ==> PhaseOk(s, r) && CallOk(s, r)
    requires var step := steps[|steps| - 1]; !step.Begin? && !step.Proceed? && step.r == r
    requires r in s.requests ==> RequestExplained(steps, r, s.requests[r])
    requires r in s.requests && s.requests[r].call.Done? ==> Ended(steps[..|steps| - 1], r, s.requests[r].call.ok)
    ensures var t := Next(s, steps[|steps| - 1]);
            r in t.requests && RequestExplained(steps, r, t.requests[r])
  {
    var last := |steps| - 1;
    var t := Next(s, steps[last]);
    hide Run, Next, Ended, Settled, TakenBy;
    match steps[last] {
      case Arrive(_) => ArriveExplains(steps, s, r);
      case TakeOne(_) => TakeOneBecomes(s, r);
      case Timeout(_) =>
        TimeoutBecomes(s, r);
        TimeoutSettles(steps, r);
      case Collect(_) =>
        CollectBecomes(s, r);
        CollectSettles(steps, r, s.requests[r].call.ok);
      case Lock(_, _) => LockExplains(steps, s, r);
      case Answer(_, ok) =>
        CallEnds(s, r, ok, steps[last]);
        EndsCall(steps, s, r, ok);
      case Die(_) =>
        CallEnds(s, r, false, steps[last]);
        EndsCall(steps, s, r, false);
      case _ =>
    }
  }

  lemma TakeOneBecomes(s: State, r: RequestId)
    requires Enabled(s, TakeOne(r))
    ensures var t, e := Next(s, TakeOne(r)), s.requests[r].phase.eng;
            r in t.requests && t.requests[r] == Request(Holding(e), Locking(e))
  {
  }

  lemma TimeoutBecomes(s: State, r: RequestId)
    requires Enabled(s, Timeout(r))
    ensures var t := Next(s, Timeout(r));
            r in t.requests && t.requests[r] == Request(Replied(false), s.requests[r].call)
  {
  }

  lemma CollectBecomes(s: State, r: RequestId)
    requires Enabled(s, Collect(r))
    ensures var t := Next(s, Collect(r));
            r in t.requests && t.requests[r] == Request(Replied(s.requests[r].call.ok), s.requests[r].call)
  {
  }

  lemma CallEnds(s: State, r: RequestId, ok: bool, step: Step)
    requires Enabled(s, step) && (step == Answer(r, ok) || (step == Die(r) && !ok))
    ensures var t, c := Next(s, step), s.requests[r].call;
            r in t.requests && t.requests[r] == Request(s.requests[r].phase, Done(c.eng, ok, c.at, s.now))
  {
  }

  lemma ArriveExplains(steps: seq<Step>, s: State, r: RequestId)
    requires steps != [] && Run(steps[..|steps| - 1]) == Some(s) && steps[|steps| - 1] == Arrive(r) && r !in s.requests
    ensures var t := Next(s, Arrive(r));
            r in t.requests && RequestExplained(steps, r, t.requests[r])
  {
    hide Run;
    var last := |steps| - 1;
    if s.closed || s.quiesced || s.engine == None {
      assert SettledAt(steps, last, r, false);
    } else {
      assert TakenAt(steps, last, r, s.engine.value);
    }
  }

  lemma TimeoutSettles(steps: seq<Step>, r: RequestId)
    requires steps != [] && steps[|steps| - 1] == Timeout(r)
    ensures Settled(steps, r, false)
  {
    assert SettledAt(steps, |steps| - 1, r, false);
  }

  lemma CollectSettles(steps: seq<Step>, r: RequestId, ok: bool)
    requires steps != [] && steps[|steps| - 1] == Collect(r) && Ended(steps[..|steps| - 1], r, ok)
    ensures Settled(steps, r, ok)
  {
    hide Ended;
    assert SettledAt(steps, |steps| - 1, r, ok);
  }

  lemma EndsCall(steps: seq<Step>, s: State, r: RequestId, ok: bool)
    requires steps != [] && Run(steps[..|steps| - 1]) == Some(s)
    requires steps[|steps| - 1] == Answer(r, ok) || (steps[|steps| - 1] == Die(r) && !ok)
    ensures Ended(steps, r, ok)
  {
    hide Run;
    assert EndedAt(steps, |steps| - 1, r, ok);
  }

  lemma LockExplains(steps: seq<Step>, s: State, r: RequestId)
    requires steps != [] && Run(steps[..|steps| - 1]) == Some(s) && r in s.requests
    requires steps[|steps| - 1].Lock? && steps[|steps| - 1].r == r && Enabled(s, steps[|steps| - 1])
    requires RequestExplained(steps, r, s.requests[r])
    ensures var t := Next(s, steps[|steps| - 1]);
            r in t.requests && RequestExplained(steps, r, t.requests[r])
  {
    hide Run, TakenBy, Settled;
    var step := steps[|steps| - 1];
    var x := s.engines[s.requests[r].call.eng];
    if x.dead || x.closed || !step.written { assert EndedAt(steps, |steps| - 1, r, false); }
  }

  lemma OthersKept(s: State, step: Step, r: RequestId)
    requires Inv(s) && Enabled(s, step) && r in Next(s, step).requests
    requires step.Begin? || step.Proceed? || step.r != r
    ensures r in s.requests && Next(s, step).requests[r] == s.requests[r]
  {
    if step.Begin? || step.Proceed? {
      ControlLeavesRequests(s, step);
    } else {
      hide Inv;
      RequestStepKeeps(s, step, r);
    }
  }

  lemma RequestStepKeeps(s: State, step: Step, r: RequestId)
    requires Enabled(s, step) && !step.Begin? && !step.Proceed? && step.r != r && r in Next(s, step).requests
    ensures r in s.requests && Next(s, step).requests[r] == s.requests[r]
  {
    hide BeginAction, ProceedAction;
  }

  // ---------- runs ----------

  lemma {:induction false} RunExplains(steps: seq<Step>, r: RequestId)
    requires Run(steps).Some? && r in Run(steps).value.requests
    ensures Explained(steps, r)
    decreases |steps|
  {
    var last := |steps| - 1;
    var init := steps[..last];
    var s, step := Run(init).value, steps[last];
    RunKeepsInv(init);
    hide Inv, Next, Enabled, PhaseExplained, CallExplained;
    if r in s.requests {
      RunExplains(init, r);
      ExplainedLater(steps, r, s.requests[r]);
      DoneEnded(init, r, s.requests[r].call);
    }
    if step.Begin? || step.Proceed? || step.r != r {
      OthersKept(s, step, r);
    } else {
      if r in s.requests { InvRequest(s, r); }
      StepExplains(steps, s, r);
    }
  }

  lemma InvRequest(s: State, r: RequestId)
    requires Inv(s) && r in s.requests
    ensures PhaseOk(s, r) && CallOk(s, r)
  {
    hide EngineOk, CallOk, PhaseOk;
  }

  lemma DoneEnded(steps: seq<Step>, r: RequestId, c: Call)
    requires CallExplained(steps, r, c)
    ensures c.Done? ==> Ended(steps, r, c.ok)
  {
  }

  /** In every run a reply goes back to the step that settled it: without a result, the arrival at a
      resident that takes no requests, or a timeout; otherwise the outcome of the request's own call,
      which is what the engine answered. */
  lemma RepliesAreSettled(steps: seq<Step>, r: RequestId)
    requires Run(steps).Some? && r in Run(steps).value.requests && Run(steps).value.requests[r].phase.Replied?
    ensures Settled(steps, r, Run(steps).value.requests[r].phase.ok)
  {
    RunExplains(steps, r);
  }

  /** In every run a request that waits, is served or was passed on arrived at a resident that was open
      and not quiesced, and goes to the engine that was attached then. */
  lemma CallsAreTaken(steps: seq<Step>, r: RequestId)
    requires Run(steps).Some? && r in Run(steps).value.requests
    ensures var q := Run(steps).value.requests[r];
            && (q.phase.Queued? || q.phase.Holding? ==> TakenBy(steps, r, q.phase.eng))
            && (!q.call.Idle? ==> TakenBy(steps, r, q.call.eng))
  {
    RunExplains(steps, r);
  }

  // ---------- how an engine died or was closed ----------

  /** The step kills engine `e`: it dies under a request, or cannot be written to. */
  predicate Kills(s: State, step: Step, e: EngineId) {
    match step
    case Die(q) => q in s.requests && s.requests[q].call.Sent? && s.requests[q].call.eng == e
    case Lock(q, written) =>
      !written && q in s.requests && s.requests[q].call == Locking(e) && e in s.engines
      && !s.engines[e].dead && !s.engines[e].closed
    case _ => false
  }

  /** The step closes engine `e`: a quiesce or a close gets to it. */
  predicate Closes(s: State, step: Step, e: EngineId) {
    step.Proceed? && step.a in s.actions &&
    (s.actions[step.a] == QuiesceClose(Some(e)) || s.actions[step.a] == CloseEngine(Some(e)))
  }

  predicate KilledAt(steps: seq<Step>, j: nat, e: EngineId) {
    j < |steps| && Run(steps[..j]).Some? && Kills(Run(steps[..j]).value, steps[j], e)
  }

  predicate ClosedAt(steps: seq<Step>, j: nat, e: EngineId) {
    j < |steps| && Run(steps[..j]).Some? && Closes(Run(steps[..j]).value, steps[j], e)
  }

  ghost predicate Killed(steps: seq<Step>, e: EngineId) { exists j: nat :: KilledAt(steps, j, e) }

  ghost predicate ClosedBy(steps: seq<Step>, e: EngineId) { exists j: nat :: ClosedAt(steps, j, e) }

  lemma HistoryGrows(steps: seq<Step>, e: EngineId)
    requires steps != []
    ensures var init, last := steps[..|steps| - 1], |steps| - 1;
            && (Killed(steps, e) <==> Killed(init, e) || KilledAt(steps, last, e))
            && (ClosedBy(steps, e) <==> ClosedBy(init, e) || ClosedAt(steps, last, e))
  {
    hide Run;
    var init, last := steps[..|steps| - 1], |steps| - 1;
    forall j: nat | j < last ensures init[..j] == steps[..j] && init[j] == steps[j] {}
    forall j: nat | KilledAt(init, j, e) ensures KilledAt(steps, j, e) {}
    forall j: nat | KilledAt(steps, j, e) && j != last ensures KilledAt(init, j, e) {}
    forall j: nat | ClosedAt(init, j, e) ensures ClosedAt(steps, j, e) {}
    forall j: nat | ClosedAt(steps, j, e) && j != last ensures ClosedAt(init, j, e) {}
  }

  /** The flags of `e` after a step that led from `s` to `t`: old, or due to that step; a new engine has none. */
  predicate FlagsFollow(s: State, step: Step, t: State, e: EngineId)
    requires e in t.engines
  {
    && (t.engines[e].dead <==> (e in s.engines && s.engines[e].dead) || Kills(s, step, e))
    && (t.engines[e].closed <==> (e in s.engines && s.engines[e].closed) || Closes(s, step, e))
  }

  lemma CallStepFlags(s: State, step: Step, e: EngineId)
    requires Enabled(s, step) && (step.Lock? || step.Answer? || step.Die?) && CallOk(s, step.r)
    requires e in Next(s, step).engines
    ensures FlagsFollow(s, step, Next(s, step), e)
  {
    hide ProceedAction, BeginAction;
  }

  /** The action is about to close the engine it has, if it has one. */
  predicate Closing(x: Action) { x.QuiesceClose? || x.CloseEngine? }

  lemma CloseStepFlags(s: State, step: Step, e: EngineId)
    requires Enabled(s, step) && step.Proceed? && e in Next(s, step).engines
    requires Closing(s.actions[step.a])
    ensures FlagsFollow(s, step, Next(s, step), e)
  {
    match s.actions[step.a].eng {
      case None => EnginesKept(s, step.a, step.born);
      case Some(x) => EnginesClosed(s, step.a, step.born, x);
    }
    hide BeginAction, Advance, Finish, ProceedAction;
  }

  lemma EnginesClosed(s: State, a: ActionId, born: Option<EngineId>, e: EngineId)
    requires Enabled(s, Proceed(a, born)) && Closing(s.actions[a]) && s.actions[a].eng == Some(e)
    ensures e in s.engines && ProceedAction(s, a, born).engines == CloseChild(s, e).engines
  {
  }

  lemma EnginesKept(s: State, a: ActionId, born: Option<EngineId>)
    requires Enabled(s, Proceed(a, born)) && (s.actions[a].Start? ==> born == None)
    requires Closing(s.actions[a]) ==> s.actions[a].eng == None
    ensures ProceedAction(s, a, born).engines == s.engines
  {
    ActionsApart(a);
    hide CloseChild, SetEngine, SetAction, EndAction, CanClose;
  }

  lemma ActionsApart(a: ActionId)
    ensures forall s, x :: SetAction(s, a, x).engines == s.engines
    ensures forall s :: EndAction(s, a).engines == s.engines
  {
  }

  lemma EngineBorn(s: State, a: ActionId, e: EngineId)
    requires Enabled(s, Proceed(a, Some(e))) && s.actions[a].Start?
    ensures ProceedAction(s, a, Some(e)).engines == s.engines[e := Engine(None, false, false, {}, s.now, 0)]
  {
  }

  lemma OtherProceedFlags(s: State, step: Step, e: EngineId)
    requires Enabled(s, step) && step.Proceed? && e in Next(s, step).engines
    requires !Closing(s.actions[step.a])
    ensures FlagsFollow(s, step, Next(s, step), e)
  {
    if s.actions[step.a].Start? && step.born.Some? {
      EngineBorn(s, step.a, step.born.value);
    } else {
      EnginesKept(s, step.a, step.born);
    }
    hide BeginAction, Advance, Finish, ProceedAction, CloseChild;
  }

  lemma QuietStepFlags(s: State, step: Step, e: EngineId)
    requires Enabled(s, step) && !step.Proceed? && !step.Lock? && !step.Answer? && !step.Die?
    requires e in Next(s, step).engines
    ensures FlagsFollow(s, step, Next(s, step), e)
  {
    hide ProceedAction, Advance, Finish;
  }

  /** One step kills and closes exactly the engines it should. */
  lemma StepFlags(s: State, step: Step, e: EngineId)
    requires Enabled(s, step) && Inv(s) && e in Next(s, step).engines
    ensures FlagsFollow(s, step, Next(s, step), e)
  {
    hide FlagsFollow, Next, EngineOk, CallOk, PhaseOk;
    match step {
      case Lock(_, _) => CallStepFlags(s, step, e);
      case Answer(_, _) => CallStepFlags(s, step, e);
      case Die(_) => CallStepFlags(s, step, e);
      case Proceed(a, _) =>
        if Closing(s.actions[a]) {
          CloseStepFlags(s, step, e);
        } else {
          OtherProceedFlags(s, step, e);
        }
      case _ => QuietStepFlags(s, step, e);
    }
  }

  /** In every run an engine is dead exactly when it died under a request or could not be written to, and
      closed exactly when a quiesce or a close got to it; it starts out alive and open. */
  lemma {:induction false} EngineHistory(steps: seq<Step>, e: EngineId)
    requires Run(steps).Some?
    ensures var s := Run(steps).value;
            if e in s.engines
            then (s.engines[e].dead <==> Killed(steps, e)) && (s.engines[e].closed <==> ClosedBy(steps, e))
            else !Killed(steps, e) && !ClosedBy(steps, e)
    decreases |steps|
  {
    if steps == [] {
      assert !KilledAt(steps, 0, e) && !ClosedAt(steps, 0, e);
    } else {
      var last := |steps| - 1;
      var init := steps[..last];
      var s := Run(init).value;
      EngineHistory(init, e);
      RunKeepsInv(init);
      HistoryGrows(steps, e);
      hide Killed, ClosedBy, Kills, Closes, Inv, Next, Enabled;
      if e in Next(s, steps[last]).engines {
        StepFlags(s, steps[last], e);
      } else {
        UnknownEngine(s, steps[last], e);
      }
    }
  }

  lemma UnknownEngine(s: State, step: Step, e: EngineId)
    requires Enabled(s, step) && Inv(s) && e !in Next(s, step).engines
    ensures e !in s.engines && !Kills(s, step, e) && !Closes(s, step, e)
  {
    StepGrows(s, step);
    if step.Die? { assert CallOk(s, step.r); }
    if step.Proceed? { assert ActionOk(s, s.actions[step.a]); }
    hide Next, Inv, EngineOk, PhaseOk;
  }

  // ---------- what quiesce waits for ----------

  /** When a quiesce gets past its drain nobody holds the serial slot, so no request is inside its bounded
      call; when an engine is closed, nothing is on its pipe. */
  lemma QuiesceWaits(steps: seq<Step>, j: nat)
    requires Run(steps).Some? && j < |steps| && steps[j].Proceed?
    ensures Run(steps[..j]).Some? && steps[j].a in Run(steps[..j]).value.actions
    ensures var s := Run(steps[..j]).value;
            && (s.actions[steps[j].a].QuiesceDrain? ==>
                  s.one == None && forall r :: r in s.requests ==> !s.requests[r].phase.Holding?)
            && (forall e :: Closes(s, steps[j], e) && e in s.engines ==> s.engines[e].outstanding == {})
  {
    PrefixRuns(steps, j);
    RunKeepsInv(steps[..j]);
    var s := Run(steps[..j]).value;
    hide Run, ActionOk;
    if s.actions[steps[j].a].QuiesceDrain? {
      forall r | r in s.requests ensures !s.requests[r].phase.Holding? { assert PhaseOk(s, r); }
    }
    forall e | Closes(s, steps[j], e) && e in s.engines ensures s.engines[e].outstanding == {} {
      assert EngineOk(s, e);
    }
  }

  /** The steps of a run were possible when they were taken. */
  lemma {:induction false} PrefixRuns(steps: seq<Step>, j: nat)
    requires Run(steps).Some? && j < |steps|
    ensures Run(steps[..j]).Some? && Enabled(Run(steps[..j]).value, steps[j])
    decreases |steps|
  {
    hide Enabled, Next;
    var last := |steps| - 1;
    if j < last {
      PrefixRuns(steps[..last], j);
      assert steps[..last][..j] == steps[..j];
    }
  }

  // ---------- nothing gets stuck ----------

  /** The request that holds the serial slot can always give it up. */
  lemma SlotIsGivenUp(s: State)
    requires Inv(s) && s.one.Some?
    ensures Enabled(s, Timeout(s.one.value))
  {
    assert PhaseOk(s, s.one.value);
    hide EngineOk, CallOk;
  }

  /** The request that holds an engine's lock can always be answered. */
  lemma LockIsGivenUp(s: State, e: EngineId, ok: bool)
    requires Inv(s) && e in s.engines && s.engines[e].mu.Some?
    ensures Enabled(s, Answer(s.engines[e].mu.value, ok)) && Enabled(s, Die(s.engines[e].mu.value))
  {
    assert EngineOk(s, e);
    hide CallOk, PhaseOk;
  }

  /** In every reachable state each unfinished request and each control action can move on, or the
      request that is in its way can. */
  lemma NothingIsStuck(steps: seq<Step>)
    requires Run(steps).Some?
    ensures var s := Run(steps).value;
            && (forall r :: r in s.requests && s.requests[r].phase.Queued? && s.one == None ==> Enabled(s, TakeOne(r)))
            && (forall r :: r in s.requests && s.requests[r].phase.Holding? ==> Enabled(s, Timeout(r)))
            && (forall r :: r in s.requests && s.requests[r].phase.Holding? && s.requests[r].call.Done? ==>
                  Enabled(s, Collect(r)))
            && (forall r :: r in s.requests && s.requests[r].call.Locking? ==>
                  s.requests[r].call.eng in s.engines &&
                  var x := s.engines[s.requests[r].call.eng];
                  if x.mu == None then Enabled(s, Lock(r, true)) else Enabled(s, Answer(x.mu.value, true)))
            && (s.one.Some? ==> Enabled(s, Timeout(s.one.value)))
            && (forall a :: a in s.actions ==> ActionMoves(s, a))
  {
    RunKeepsInv(steps);
    var s := Run(steps).value;
    hide Run;
    if s.one.Some? { SlotIsGivenUp(s); }
    forall r | r in s.requests && s.requests[r].call.Locking?
      ensures s.requests[r].call.eng in s.engines
      ensures var x := s.engines[s.requests[r].call.eng];
              if x.mu == None then Enabled(s, Lock(r, true)) else Enabled(s, Answer(x.mu.value, true))
    {
      assert CallOk(s, r);
      if s.engines[s.requests[r].call.eng].mu.Some? { LockIsGivenUp(s, s.requests[r].call.eng, true); }
    }
    forall a | a in s.actions ensures ActionMoves(s, a) {
      assert ActionOk(s, s.actions[a]);
      ActionCanMove(s, a);
    }
    hide Inv;
  }

  /** The action can take its next step, or the holder of the slot or lock it waits for can. */
  predicate ActionMoves(s: State, a: ActionId)
    requires a in s.actions
  {
    match s.actions[a]
    case QuiesceDrain(_) => if s.one == None then Enabled(s, Proceed(a, None)) else Enabled(s, Timeout(s.one.value))
    case QuiesceClose(o) => CloseMoves(s, a, o)
    case CloseEngine(o) => CloseMoves(s, a, o)
    case _ => Enabled(s, Proceed(a, None))
  }

  predicate CloseMoves(s: State, a: ActionId, o: Option<EngineId>)
    requires a in s.actions
  {
    if o.Some? && o.value in s.engines && s.engines[o.value].mu.Some? then
      Enabled(s, Answer(s.engines[o.value].mu.value, true))
    else Enabled(s, Proceed(a, None))
  }

  lemma ActionCanMove(s: State, a: ActionId)
    requires Inv(s) && a in s.actions && ActionOk(s, s.actions[a])
    ensures ActionMoves(s, a)
  {
    if s.one.Some? { SlotIsGivenUp(s); }
    forall e | e in s.engines && s.engines[e].mu.Some? ensures Enabled(s, Answer(s.engines[e].mu.value, true)) {
      LockIsGivenUp(s, e, true);
    }
    hide Inv;
  }

  // ---------- a run that goes well ----------

  /** A request that is served: taken, written, answered and replied to with its result. */
  lemma RequestIsServed() returns (steps: seq<Step>, s: State)
    ensures Run(steps) == Some(s)
    ensures 7 in s.requests && s.requests[7].phase == Replied(true) && s.one == None
    ensures s.engines.Keys == {0} && s.engines[0].outstanding == {} && !s.engines[0].dead
  {
    hide Run;
    steps, s := Served();
    steps, s := Continue(steps, s, Arrive(7));
    steps, s := Continue(steps, s, TakeOne(7));
    steps, s := Continue(steps, s, Lock(7, true));
    steps, s := Continue(steps, s, Answer(7, true));
    steps, s := Continue(steps, s, Collect(7));
  }

  lemma Continue(steps: seq<Step>, s: State, step: Step) returns (more: seq<Step>, t: State)
    requires Run(steps) == Some(s) && Enabled(s, step)
    ensures Run(more) == Some(t) && t == Next(s, step)
  {
    Extend(steps, s, step);
    more, t := steps + [step], Next(s, step);
  }

  /** The old engine is quiesced and closed; a request that came in between is refused. */
  lemma SwappedOut() returns (steps: seq<Step>, s: State)
    ensures Run(steps) == Some(s) && s.engines.Keys == {0} && s.engines[0].closed
    ensures s.engine == None && s.quiesced && !s.closed && s.serving && s.actions == map[] && s.one == None
    ensures s.requests == map[7 := Request(Replied(false), Idle)]
  {
    hide Run;
    steps, s := Served();
    steps, s := Continue(steps, s, Begin(1, Quiesce));
    steps, s := Continue(steps, s, Arrive(7));
    steps, s := Continue(steps, s, Proceed(1, None));
    steps, s := Continue(steps, s, Proceed(1, None));
    steps, s := Continue(steps, s, Proceed(1, None));
  }

  /** An upgrade: after the swap a new engine is started, and a request that comes then goes to it. */
  lemma UpgradeIsServed() returns (steps: seq<Step>, s: State)
    ensures Run(steps) == Some(s) && s.engines.Keys == {0, 1} && s.engines[0].closed && !s.engines[1].closed
    ensures s.engine == Some(1) && !s.quiesced && !s.closed && s.actions == map[] && s.one == None
    ensures s.requests == map[7 := Request(Replied(false), Idle), 8 := Request(Queued(1), Idle)]
  {
    hide Run;
    steps, s := SwappedOut();
    steps, s := Continue(steps, s, Begin(2, Resume));
    steps, s := Continue(steps, s, Proceed(2, Some(1)));
    steps, s := Continue(steps, s, Proceed(2, None));
    steps, s := Continue(steps, s, Proceed(2, None));
    steps, s := Continue(steps, s, Arrive(8));
  }
}
