/** Where the results of the resident come from, over whole runs, and two runs that show what is
    not promised. */
module ResidentRuns {
  import opened Text
  import opened Resident
  import opened ResidentProofs

  // ---------- where a result comes from ----------

  lemma StepGrows(s: State, step: Step)
    requires Inv(s) && Enabled(s, step)
    ensures Grown(s, Next(s, step))
  {
    hide EngineOk, CallOk, PhaseOk, ActionOk, Next;
    match step {
      case Begin(a, kind) => BeginControls(s, a, kind);
      case Proceed(a, born) => assert ActionOk(s, s.actions[a]); ProceedControls(s, a, born);
      case Lock(_, _) => CallStepTouches(s, step);
      case Answer(_, _) => CallStepTouches(s, step);
      case Die(_) => CallStepTouches(s, step);
      case _ => PlainTouches(s, step);
    }
  }

  /** An engine open at the end of a run was open ever since it was started; one that is closed
      was open until its closing instant. */
  lemma {:induction false} OpenUntilClosed(steps: seq<Step>, k: nat, e: EngineId)
    requires Run(steps).Some? && e in Run(steps).value.engines && k <= |steps|
    requires Run(steps).value.engines[e].started < k
    requires Run(steps).value.engines[e].closed ==> k <= Run(steps).value.engines[e].closedAt
    ensures Run(steps[..k]).Some? && e in Run(steps[..k]).value.engines && !Run(steps[..k]).value.engines[e].closed
    decreases |steps|
  {
    RunKeepsInv(steps);
    assert EngineOk(Run(steps).value, e);
    if k == |steps| {
      assert steps[..k] == steps;
    } else {
      var last := |steps| - 1;
      var s := Run(steps[..last]).value;
      RunKeepsInv(steps[..last]);
      StepGrows(s, steps[last]);
      assert steps[..last][..k] == steps[..k];
      hide Inv, Next, Enabled;
      OpenUntilClosed(steps[..last], k, e);
    }
  }

  /** The instants a call carries are the steps at which it was written and answered. */
  ghost predicate Recorded(steps: seq<Step>, r: RequestId, c: Call) {
    match c
    case Sent(_, at) => at < |steps| && steps[at] == Lock(r, true)
    case Done(_, ok, at, end) => ok ==>
      at < end < |steps| && steps[at] == Lock(r, true) && steps[end] == Answer(r, true)
    case _ => true
  }

  lemma {:induction false} CallsAreRecorded(steps: seq<Step>, r: RequestId)
    requires Run(steps).Some? && r in Run(steps).value.requests
    ensures Recorded(steps, r, Run(steps).value.requests[r].call)
    decreases |steps|
  {
    if steps != [] {
      var last := |steps| - 1;
      var s := Run(steps[..last]).value;
      RunKeepsInv(steps[..last]);
      if r in s.requests {
        CallsAreRecorded(steps[..last], r);
        RecordedExtends(steps, r, s.requests[r].call);
      }
      CallRecorded(s, steps[last], steps, r);
    }
  }

  lemma RecordedExtends(steps: seq<Step>, r: RequestId, c: Call)
    requires steps != [] && Recorded(steps[..|steps| - 1], r, c)
    ensures Recorded(steps, r, c)
  {
  }

  lemma CallRecorded(s: State, step: Step, steps: seq<Step>, r: RequestId)
    requires Inv(s) && Enabled(s, step) && r in Next(s, step).requests && s.now == |steps| - 1
    requires steps[|steps| - 1] == step
    requires r in s.requests ==> CallOk(s, r) && Recorded(steps, r, s.requests[r].call)
    ensures Recorded(steps, r, Next(s, step).requests[r].call)
  {
    if step.Begin? || step.Proceed? {
      ControlLeavesRequests(s, step);
    } else {
      hide BeginAction, ProceedAction;
      match step {
        case Lock(q, written) => hide Advance; AdvanceCalls(s, q, step, r);
        case Answer(q, _) => AdvanceCalls(s, q, step, r);
        case Die(q) => AdvanceCalls(s, q, step, r);
        case _ =>
      }
    }
  }

  lemma ControlLeavesRequests(s: State, step: Step)
    requires Inv(s) && Enabled(s, step) && (step.Begin? || step.Proceed?)
    ensures Next(s, step).requests == s.requests
  {
    match step {
      case Begin(a, kind) =>
        hide Next, EngineOk, CallOk, PhaseOk;
        BeginControls(s, a, kind);
      case Proceed(a, born) =>
        assert ActionOk(s, s.actions[a]);
        hide Next, EngineOk, CallOk, PhaseOk, ActionOk;
        ProceedControls(s, a, born);
      case _ =>
    }
  }

  /** What a step of the call of `q` leaves in the record of any request. */
  lemma AdvanceCalls(s: State, q: RequestId, step: Step, r: RequestId)
    requires (step.Lock? || step.Answer? || step.Die?) && step.r == q && Enabled(s, step)
    requires r in Next(s, step).requests
    ensures r in s.requests
    ensures r != q ==> Next(s, step).requests[r] == s.requests[r]
    ensures var c := Next(s, step).requests[q].call;
            if step.Lock? then (c.Done? && !c.ok) || (c.Sent? && step.written && c.at == s.now)
            else c.Done? && c.doneAt == s.now && c.sentAt == s.requests[q].call.at && (c.ok ==> step == Answer(q, true))
  {
  }

  /** A reply that carries a result comes from a call that was written at step `at` and answered
      at step `end`, and whose engine was open at every instant from the one to the other. */
  lemma ResultsAreWhole(steps: seq<Step>, r: RequestId) returns (e: EngineId, at: nat, end: nat)
    requires Run(steps).Some? && r in Run(steps).value.requests && Run(steps).value.requests[r].phase == Replied(true)
    ensures at < end < |steps| && steps[at] == Lock(r, true) && steps[end] == Answer(r, true)
    ensures forall k :: at <= k <= end + 1 ==>
              Run(steps[..k]).Some? && e in Run(steps[..k]).value.engines && !Run(steps[..k]).value.engines[e].closed
  {
    hide Run, Recorded;
    RunKeepsInv(steps);
    var s := Run(steps).value;
    assert PhaseOk(s, r) && CallOk(s, r);
    e, at, end := s.requests[r].call.eng, s.requests[r].call.sentAt, s.requests[r].call.doneAt;
    assert Recorded(steps, r, s.requests[r].call) by { CallsAreRecorded(steps, r); }
    assert at < end < |steps| && steps[at] == Lock(r, true) && steps[end] == Answer(r, true) by {
      WholeCall(steps, r, s.requests[r].call);
    }
    forall k | at <= k <= end + 1
      ensures Run(steps[..k]).Some? && e in Run(steps[..k]).value.engines && !Run(steps[..k]).value.engines[e].closed
    {
      OpenUntilClosed(steps, k, e);
    }
  }

  lemma WholeCall(steps: seq<Step>, r: RequestId, c: Call)
    requires c.Done? && c.ok && Recorded(steps, r, c)
    ensures c.sentAt < c.doneAt < |steps| && steps[c.sentAt] == Lock(r, true) && steps[c.doneAt] == Answer(r, true)
  {
  }

  // ---------- two runs that show what is not promised ----------

  lemma Extend(steps: seq<Step>, s: State, step: Step)
    requires Run(steps) == Some(s) && Enabled(s, step)
    ensures Run(steps + [step]) == Some(Next(s, step))
  {
    assert (steps + [step])[..|steps|] == steps;
  }

  /** `Serve`: an engine is started and attached. */
  lemma Served() returns (steps: seq<Step>, s: State)
    ensures Run(steps) == Some(s)
    ensures s.now == 3 && s.engines == map[0 := Engine(None, false, false, {}, 1, 0)] && s.engine == Some(0)
    ensures !s.quiesced && !s.closed && s.serving && s.one == None && s.requests == map[] && s.actions == map[]
  {
    var s1 := Next(INIT, Begin(0, Serve));
    Extend([], INIT, Begin(0, Serve));
    var s2 := Next(s1, Proceed(0, Some(0)));
    Extend([] + [Begin(0, Serve)], s1, Proceed(0, Some(0)));
    s := Next(s2, Proceed(0, None));
    Extend([] + [Begin(0, Serve)] + [Proceed(0, Some(0))], s2, Proceed(0, None));
    steps := [] + [Begin(0, Serve)] + [Proceed(0, Some(0))] + [Proceed(0, None)];
  }

  /** A resume that follows no quiesce leaves two engines open, the first attached to nothing. */
  lemma ResumeLeaksEngine() returns (steps: seq<Step>, s: State)
    ensures Run(steps) == Some(s) && s.actions == map[]
    ensures s.engine == Some(1) && 0 in s.engines && 1 in s.engines && !s.engines[0].closed && !s.engines[1].closed
  {
    hide Run;
    steps, s := Served();
    var todo := [Begin(1, Resume), Proceed(1, Some(1)), Proceed(1, None), Proceed(1, None)];
    Extend(steps, s, todo[0]);
    steps, s := steps + [todo[0]], Next(s, todo[0]);
    Extend(steps, s, todo[1]);
    steps, s := steps + [todo[1]], Next(s, todo[1]);
    Extend(steps, s, todo[2]);
    steps, s := steps + [todo[2]], Next(s, todo[2]);
    Extend(steps, s, todo[3]);
    steps, s := steps + [todo[3]], Next(s, todo[3]);
  }

  /** A request that timed out: its caller is answered, its call is still on the pipe. */
  lemma Abandoned() returns (steps: seq<Step>, s: State)
    ensures Run(steps) == Some(s)
    ensures s == State(7, map[0 := Engine(Some(7), false, false, {7}, 1, 0)], Some(0), false, false, true, None,
                       map[7 := Request(Replied(false), Sent(0, 5))], map[])
  {
    hide Run;
    steps, s := Served();
    var todo := [Arrive(7), TakeOne(7), Lock(7, true), Timeout(7)];
    Extend(steps, s, todo[0]);
    steps, s := steps + [todo[0]], Next(s, todo[0]);
    Extend(steps, s, todo[1]);
    steps, s := steps + [todo[1]], Next(s, todo[1]);
    Extend(steps, s, todo[2]);
    steps, s := steps + [todo[2]], Next(s, todo[2]);
    Extend(steps, s, todo[3]);
    steps, s := steps + [todo[3]], Next(s, todo[3]);
    var none: set<RequestId> := {};
    assert none + {7} == {7};
    assert s.engines == map[0 := Engine(Some(7), false, false, {7}, 1, 0)];
    assert s.requests == map[7 := Request(Replied(false), Sent(0, 5))];
  }

  /** Quiesce gets past `one` while a call that timed out is still on the pipe; only the engine's
      own lock makes the closing wait for it. */
  lemma DrainMissesAbandoned() returns (steps: seq<Step>, s: State)
    ensures Run(steps) == Some(s)
    ensures s.actions == map[1 := QuiesceClose(Some(0))] && s.one == None
    ensures 7 in s.requests && s.requests[7].phase == Replied(false)
    ensures 0 in s.engines && s.engines[0].outstanding == {7} && !Enabled(s, Proceed(1, None))
  {
    hide Run;
    steps, s := Abandoned();
    var begin, drain := Begin(1, Quiesce), Proceed(1, None);
    Extend(steps, s, begin);
    steps, s := steps + [begin], Next(s, begin);
    Extend(steps, s, drain);
    steps, s := steps + [drain], Next(s, drain);
  }
}
