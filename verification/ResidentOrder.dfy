/** Runs whose control actions do not overlap, while requests interleave freely. */
module ResidentOrder {
  import opened Text
  import opened Resident
  import opened ResidentProofs
  import opened ResidentRuns

  // ---------- how control actions follow each other ----------

  /** Control actions do not overlap, and the first of them is `Serve`. */
  predicate Alone(s: State, kind: Kind) { s.actions == map[] && (kind.Serve? <==> !s.serving) }

  predicate Paced(steps: seq<Step>)
    decreases |steps|
  {
    steps == [] ||
    (var last := |steps| - 1;
     var before := Run(steps[..last]);
     Paced(steps[..last]) && (steps[last].Begin? && before.Some? ==> Alone(before.value, steps[last].kind)))
  }

  /** An engine is started while another is attached. */
  predicate Doubles(s: State, step: Step) {
    step.Proceed? && step.a in s.actions && s.actions[step.a].Start? && step.born.Some? && s.engine.Some?
  }

  /** Paced, and no start succeeds while an engine is attached. */
  predicate Orderly(steps: seq<Step>)
    decreases |steps|
  {
    steps == [] ||
    (var last := |steps| - 1;
     var before := Run(steps[..last]);
     Orderly(steps[..last])
     && (before.Some? ==>
          !Doubles(before.value, steps[last]) && (steps[last].Begin? ==> Alone(before.value, steps[last].kind))))
  }

  /** Paced, and every resume begins quiesced. */
  predicate ResumesQuiesced(steps: seq<Step>)
    decreases |steps|
  {
    steps == [] ||
    (var last := |steps| - 1;
     var before := Run(steps[..last]);
     ResumesQuiesced(steps[..last])
     && (steps[last].Begin? && before.Some? ==>
           Alone(before.value, steps[last].kind) && (steps[last].kind.Resume? ==> before.value.quiesced)))
  }

  // ---------- the invariant ----------

  /** The engines not closed are exactly `o`. */
  ghost predicate Live(s: State, o: Option<EngineId>) {
    && (o.Some? ==> o.value in s.engines && !s.engines[o.value].closed)
    && forall e :: e in s.engines && o != Some(e) ==> s.engines[e].closed
  }

  /** No control action is under way. */
  ghost predicate Settled(s: State) {
    && Live(s, s.engine)
    && (s.quiesced ==> s.engine == None)
    && (!s.serving ==> s.engine == None && !s.quiesced)
    && (s.serving && !s.closed && !s.quiesced ==> s.engine.Some?)
  }

  /** A control action is under way. */
  ghost predicate Underway(s: State, a: Action) {
    match a
    case QuiesceDrain(o) => s.engine == o && s.quiesced && s.serving && Live(s, o)
    case QuiesceClose(o) => s.engine == o && s.quiesced && s.serving && Live(s, o)
    case QuiesceDetach => s.quiesced && s.serving && Live(s, None)
    case Start(resume) => Settled(s) && s.serving == resume
    case Attach(e, resume) =>
      s.engine == None && Live(s, Some(e)) && s.serving == resume &&
        (if resume then s.quiesced || s.closed else !s.quiesced)
    case Unquiesce => s.engine.Some? && Live(s, s.engine) && s.serving
    case CloseEngine(o) => s.engine == None && Live(s, o) && s.serving && s.closed
  }

  ghost predicate Shape(s: State) {
    && (forall a, b :: a in s.actions && b in s.actions ==> a == b)
    && (forall a :: a in s.actions ==> Underway(s, s.actions[a]))
    && (s.actions == map[] ==> Settled(s))
  }

  /** Of any two engines one was closed before the other was started. */
  ghost predicate OneAfterAnother(s: State) {
    forall e, f :: e in s.engines && f in s.engines && e != f && s.engines[e].started <= s.engines[f].started ==>
      s.engines[e].closed && s.engines[e].closedAt < s.engines[f].started
  }

  lemma TouchKeepsShape(s: State, t: State, r: RequestId, own: Option<EngineId>)
    requires Touches(s, t, r, own) && Shape(s) && OneAfterAnother(s)
    ensures Shape(t) && OneAfterAnother(t)
  {
    TouchEngines(s, t, r, own);
    hide OneAfterAnother, Live, Shape;
    ShapeFrame(s, t);
  }

  lemma ShapeFrame(s: State, t: State)
    requires Shape(s) && t.actions == s.actions && t.engine == s.engine
    requires t.quiesced == s.quiesced && t.closed == s.closed && t.serving == s.serving
    requires forall o :: Live(s, o) ==> Live(t, o)
    ensures Shape(t)
  {
    hide Live;
    forall a | a in s.actions ensures Underway(t, t.actions[a]) { assert Underway(s, s.actions[a]); }
  }

  lemma TouchEngines(s: State, t: State, r: RequestId, own: Option<EngineId>)
    requires Touches(s, t, r, own)
    ensures OneAfterAnother(s) ==> OneAfterAnother(t)
    ensures forall o :: Live(s, o) ==> Live(t, o)
  {
  }

  lemma RequestStepTouches(s: State, step: Step) returns (own: Option<EngineId>)
    requires Inv(s) && Enabled(s, step) && !step.Begin? && !step.Proceed?
    ensures Touches(s, Next(s, step), step.r, own)
  {
    hide EngineOk, CallOk, PhaseOk, Touches, Next;
    if step.Lock? || step.Answer? || step.Die? {
      own := Some(s.requests[step.r].call.eng);
      CallStepTouches(s, step);
    } else {
      own := None;
      PlainTouches(s, step);
    }
  }

  lemma BeginKeepsShape(s: State, a: ActionId, kind: Kind)
    requires Alone(s, kind) && Shape(s) && OneAfterAnother(s)
    ensures var t := BeginAction(s, a, kind).(now := s.now + 1); Shape(t) && OneAfterAnother(t)
  {
    var t := BeginAction(s, a, kind).(now := s.now + 1);
    assert t.engines == s.engines;
    assert Settled(s);
    forall b | b in t.actions ensures b == a && Underway(t, t.actions[b]) {}
    assert a in t.actions || t.actions == map[];
  }

  lemma AloneShape(t: State, a: ActionId)
    requires forall b :: b in t.actions ==> b == a
    requires if a in t.actions then Underway(t, t.actions[a]) else Settled(t)
    ensures Shape(t)
  {
    hide Underway, Settled;
  }

  lemma StartKeepsShape(s: State, a: ActionId, born: Option<EngineId>)
    requires Enabled(s, Proceed(a, born)) && s.actions[a].Start? && Underway(s, s.actions[a]) && OneAfterAnother(s)
    requires !Doubles(s, Proceed(a, born))
    requires forall b :: b in s.actions ==> b == a
    requires forall e :: e in s.engines && s.engines[e].closed ==> s.engines[e].started < s.engines[e].closedAt < s.now
    ensures var t := ProceedAction(s, a, born).(now := s.now + 1); Shape(t) && OneAfterAnother(t)
  {
    var t := ProceedAction(s, a, born).(now := s.now + 1);
    if born == None {
      hide OneAfterAnother, Live, Shape;
      EnginesOnly(s, t);
      AloneShape(t, a);
    } else {
      var u := SetEngine(s, born.value, Engine(None, false, false, {}, s.now, 0));
      BornLast(s, born.value);
      hide OneAfterAnother, Live, Shape;
      EnginesOnly(u, t);
      AloneShape(t, a);
    }
  }

  lemma BornLast(s: State, e: EngineId)
    requires e !in s.engines && Live(s, None) && OneAfterAnother(s)
    requires forall x :: x in s.engines && s.engines[x].closed ==> s.engines[x].started < s.engines[x].closedAt < s.now
    ensures var u := SetEngine(s, e, Engine(None, false, false, {}, s.now, 0)); Live(u, Some(e)) && OneAfterAnother(u)
  {
  }

  lemma CloseLeavesNone(s: State, o: Option<EngineId>)
    requires Live(s, o) && OneAfterAnother(s)
    ensures var u := if o.Some? then CloseChild(s, o.value) else s;
            Live(u, None) && OneAfterAnother(u) && u == s.(engines := u.engines)
  {
  }

  lemma CloseKeepsShape(s: State, a: ActionId, born: Option<EngineId>)
    requires Enabled(s, Proceed(a, born)) && (s.actions[a].QuiesceClose? || s.actions[a].CloseEngine?)
    requires Underway(s, s.actions[a]) && OneAfterAnother(s)
    requires forall b :: b in s.actions ==> b == a
    ensures var t := ProceedAction(s, a, born).(now := s.now + 1); Shape(t) && OneAfterAnother(t)
  {
    var o := s.actions[a].eng;
    var u := if o.Some? then CloseChild(s, o.value) else s;
    CloseLeavesNone(s, o);
    hide CloseChild;
    var t := ProceedAction(s, a, born).(now := s.now + 1);
    EnginesOnly(u, t);
    hide OneAfterAnother, Live, Shape;
    AloneShape(t, a);
  }

  lemma EnginesOnly(u: State, t: State)
    requires u.engines == t.engines
    ensures OneAfterAnother(u) ==> OneAfterAnother(t)
    ensures forall o :: Live(u, o) ==> Live(t, o)
  {
  }

  lemma QuietKeepsShape(s: State, a: ActionId, born: Option<EngineId>)
    requires Enabled(s, Proceed(a, born)) && !s.actions[a].QuiesceClose? && !s.actions[a].CloseEngine? &&
               !s.actions[a].Start?
    requires Underway(s, s.actions[a]) && OneAfterAnother(s)
    requires forall b :: b in s.actions ==> b == a
    ensures var t := ProceedAction(s, a, born).(now := s.now + 1); Shape(t) && OneAfterAnother(t)
  {
    hide OneAfterAnother, Live, Shape;
    var t := ProceedAction(s, a, born).(now := s.now + 1);
    EnginesOnly(s, t);
    AloneShape(t, a);
  }

  lemma ProceedKeepsShape(s: State, a: ActionId, born: Option<EngineId>)
    requires Enabled(s, Proceed(a, born)) && Shape(s) && OneAfterAnother(s) && !Doubles(s, Proceed(a, born))
    requires forall e :: e in s.engines ==> EngineOk(s, e)
    ensures var t := ProceedAction(s, a, born).(now := s.now + 1); Shape(t) && OneAfterAnother(t)
  {
    assert Underway(s, s.actions[a]);
    hide ProceedAction, OneAfterAnother, Underway, Settled;
    if s.actions[a].Start? {
      forall e | e in s.engines && s.engines[e].closed ensures s.engines[e].started < s.engines[e].closedAt < s.now {
        assert EngineOk(s, e);
      }
      StartKeepsShape(s, a, born);
    } else if s.actions[a].QuiesceClose? || s.actions[a].CloseEngine? {
      CloseKeepsShape(s, a, born);
    } else {
      QuietKeepsShape(s, a, born);
    }
  }

  lemma NextKeepsShape(s: State, step: Step)
    requires Inv(s) && Enabled(s, step) && (step.Begin? ==> Alone(s, step.kind)) && !Doubles(s, step)
    requires Shape(s) && OneAfterAnother(s)
    ensures Shape(Next(s, step)) && OneAfterAnother(Next(s, step))
  {
    hide Shape, OneAfterAnother, Alone, BeginAction, ProceedAction, Doubles;
    match step {
      case Begin(a, kind) => BeginKeepsShape(s, a, kind);
      case Proceed(a, born) => ProceedKeepsShape(s, a, born);
      case _ =>
        hide Next, Enabled, Inv;
        var own := RequestStepTouches(s, step);
        hide Touches;
        TouchKeepsShape(s, Next(s, step), step.r, own);
    }
  }

  lemma {:induction false} OrderlyShape(steps: seq<Step>)
    requires Orderly(steps) && Run(steps).Some?
    ensures Shape(Run(steps).value) && OneAfterAnother(Run(steps).value)
    decreases |steps|
  {
    if steps != [] {
      hide Enabled, Next, Inv, Shape, OneAfterAnother, Alone, Doubles;
      var last := |steps| - 1;
      OrderlyShape(steps[..last]);
      RunKeepsInv(steps[..last]);
      NextKeepsShape(Run(steps[..last]).value, steps[last]);
    }
  }

  /** At most one engine is open at any time; any other was closed before it was started. */
  lemma OneLiveEngine(steps: seq<Step>, e: EngineId, f: EngineId)
    requires Orderly(steps) && Run(steps).Some? && e != f
    requires var s := Run(steps).value;
             e in s.engines && f in s.engines && s.engines[e].started <= s.engines[f].started
    ensures var s := Run(steps).value; s.engines[e].closed && s.engines[e].closedAt < s.engines[f].started
  {
    hide Run, Shape;
    OrderlyShape(steps);
  }

  // ---------- which runs are orderly ----------

  ghost predicate Quiesced(s: State) { forall a :: a in s.actions && s.actions[a] == Start(true) ==> s.quiesced }

  lemma NextKeepsQuiesced(s: State, step: Step)
    requires Inv(s) && Enabled(s, step) && Quiesced(s) && Shape(s)
    requires step.Begin? ==> Alone(s, step.kind) && (step.kind.Resume? ==> s.quiesced)
    ensures Quiesced(Next(s, step))
  {
    hide Shape, Inv, Quiesced;
    match step {
      case Begin(a, kind) => hide Next; BeginKeepsQuiesced(s, a, kind);
      case Proceed(a, born) => hide ProceedAction; OnlyAction(s, a); ProceedKeepsQuiesced(s, a, born);
      case _ =>
        hide Next, Enabled;
        var own := RequestStepTouches(s, step);
        SameActions(s, Next(s, step), step.r, own);
    }
  }

  lemma SameActions(s: State, t: State, r: RequestId, own: Option<EngineId>)
    requires Touches(s, t, r, own) && Quiesced(s)
    ensures Quiesced(t)
  {
  }

  lemma BeginKeepsQuiesced(s: State, a: ActionId, kind: Kind)
    requires Enabled(s, Begin(a, kind)) && Alone(s, kind) && (kind.Resume? ==> s.quiesced)
    ensures Quiesced(Next(s, Begin(a, kind)))
  {
  }

  lemma StartKeepsQuiesced(s: State, a: ActionId, born: Option<EngineId>)
    requires Enabled(s, Proceed(a, born)) && s.actions[a].Start? && forall b :: b in s.actions ==> b == a
    ensures Quiesced(ProceedAction(s, a, born).(now := s.now + 1))
  {
    hide SetEngine, Quiesced, SetAction, EndAction;
    CloseOnly(s);
    var now, resume := s.now + 1, s.actions[a].resume;
    if born == None {
      NoStartEnd(s, a, now);
    } else {
      var u := SetEngine(s, born.value, Engine(None, false, false, {}, s.now, 0));
      NoStartSet(u, a, Attach(born.value, resume), now);
    }
  }

  /** An action that goes on is no start any more. */
  lemma ProceedKeepsQuiesced(s: State, a: ActionId, born: Option<EngineId>)
    requires Enabled(s, Proceed(a, born)) && forall b :: b in s.actions ==> b == a
    ensures Quiesced(ProceedAction(s, a, born).(now := s.now + 1))
  {
    hide CloseChild, SetEngine, Quiesced, SetAction, EndAction;
    CloseOnly(s);
    var now := s.now + 1;
    if s.actions[a].Start? {
      StartKeepsQuiesced(s, a, born);
      return;
    }
    match s.actions[a] {
      case QuiesceDrain(e) => NoStartSet(s, a, QuiesceClose(e), now);
      case QuiesceClose(e) => NoStartSet(if e.Some? then CloseChild(s, e.value) else s, a, QuiesceDetach, now);
      case QuiesceDetach => NoStartEnd(s.(engine := None), a, now);
      case Start(_) =>
      case Attach(e, resume) =>
        if resume {
          NoStartSet(s.(engine := Some(e)), a, Unquiesce, now);
        } else {
          NoStartEnd(s.(engine := Some(e), serving := true), a, now);
        }
      case Unquiesce => NoStartEnd(s.(quiesced := false), a, now);
      case CloseEngine(e) => NoStartEnd(if e.Some? then CloseChild(s, e.value) else s, a, now);
    }
  }

  lemma NoStartSet(u: State, a: ActionId, x: Action, now: nat)
    requires (forall b :: b in u.actions ==> b == a) && x != Start(true)
    ensures Quiesced(SetAction(u, a, x).(now := now))
  {
  }

  lemma NoStartEnd(u: State, a: ActionId, now: nat)
    requires forall b :: b in u.actions ==> b == a
    ensures Quiesced(EndAction(u, a).(now := now))
  {
  }

  lemma CloseOnly(s: State)
    ensures forall e :: e in s.engines ==> CloseChild(s, e).actions == s.actions
    ensures forall e, x :: SetEngine(s, e, x).actions == s.actions
  {
  }

  lemma OnlyAction(s: State, a: ActionId)
    requires Shape(s) && a in s.actions
    ensures forall b :: b in s.actions ==> b == a
  {
    hide Underway, Settled;
  }

  /** A run in which every resume follows a quiesce is orderly. */
  lemma {:induction false} QuiescedIsOrderly(steps: seq<Step>)
    requires ResumesQuiesced(steps) && Run(steps).Some?
    ensures Orderly(steps) && Quiesced(Run(steps).value)
    decreases |steps|
  {
    if steps != [] {
      hide Enabled, Next, Inv, Shape, OneAfterAnother, Alone, Quiesced;
      var last := |steps| - 1;
      var s := Run(steps[..last]).value;
      QuiescedIsOrderly(steps[..last]);
      OrderlyShape(steps[..last]);
      RunKeepsInv(steps[..last]);
      NextKeepsQuiesced(s, steps[last]);
      QuiescedDoubles(s, steps[last]);
    }
  }

  lemma QuiescedDoubles(s: State, step: Step)
    requires Quiesced(s) && Shape(s)
    ensures !Doubles(s, step)
  {
    hide Live;
    if step.Proceed? && step.a in s.actions && s.actions[step.a].Start? { assert Underway(s, s.actions[step.a]); }
  }

  ghost predicate OneOpen(s: State) {
    forall e, f :: e in s.engines && f in s.engines && !s.engines[e].closed && !s.engines[f].closed ==> e == f
  }

  /** At every instant of the run at most one engine is open. */
  ghost predicate AlwaysOne(steps: seq<Step>) {
    forall k :: 0 <= k <= |steps| && Run(steps[..k]).Some? ==> OneOpen(Run(steps[..k]).value)
  }

  lemma ShapeIsOne(s: State)
    requires Shape(s)
    ensures OneOpen(s)
  {
    if s.actions != map[] {
      var a :| a in s.actions;
      assert Underway(s, s.actions[a]);
    }
  }

  lemma {:induction false} OrderlyPrefix(steps: seq<Step>, k: nat)
    requires Orderly(steps) && k <= |steps|
    ensures Orderly(steps[..k])
    decreases |steps|
  {
    hide Run, Doubles, Alone;
    if k < |steps| {
      assert steps[..|steps| - 1][..k] == steps[..k];
      OrderlyPrefix(steps[..|steps| - 1], k);
    } else {
      assert steps[..k] == steps;
    }
  }

  lemma AlwaysOnePrefix(steps: seq<Step>, k: nat)
    requires AlwaysOne(steps) && k <= |steps|
    ensures AlwaysOne(steps[..k])
  {
    hide Run, OneOpen;
    forall i | 0 <= i <= k && Run(steps[..k][..i]).Some? ensures OneOpen(Run(steps[..k][..i]).value) {
      assert steps[..k][..i] == steps[..i];
    }
  }

  /** Starting an engine while one is attached leaves two of them open. */
  lemma DoublesLeaks(s: State, step: Step)
    requires Shape(s) && Enabled(s, step) && Doubles(s, step)
    ensures !OneOpen(Next(s, step))
  {
    assert Underway(s, s.actions[step.a]);
    var t, e, f := Next(s, step), s.engine.value, step.born.value;
    assert e in t.engines && f in t.engines && !t.engines[e].closed && !t.engines[f].closed;
  }

  lemma {:induction false} OneIsOrderly(steps: seq<Step>)
    requires Paced(steps) && Run(steps).Some? && AlwaysOne(steps)
    ensures Orderly(steps)
    decreases |steps|
  {
    if steps != [] {
      hide Enabled, Next, Inv, Shape, OneAfterAnother, Alone, Doubles, OneOpen;
      var last := |steps| - 1;
      var s := Run(steps[..last]).value;
      AlwaysOnePrefix(steps, last);
      OneIsOrderly(steps[..last]);
      OrderlyShape(steps[..last]);
      assert steps[..|steps|] == steps;
      if Doubles(s, steps[last]) { DoublesLeaks(s, steps[last]); }
    }
  }

  /** Of the runs whose control actions do not overlap, those that never have two engines open are
      exactly those in which no start succeeds while an engine is attached: a resume that follows no
      quiesce leaks the engine it finds. */
  lemma LeakIsExact(steps: seq<Step>)
    requires Paced(steps) && Run(steps).Some?
    ensures AlwaysOne(steps) <==> Orderly(steps)
  {
    hide Run, Paced, Orderly, OneOpen, Shape, OneAfterAnother;
    if AlwaysOne(steps) { OneIsOrderly(steps); }
    if Orderly(steps) {
      forall k | 0 <= k <= |steps| && Run(steps[..k]).Some? ensures OneOpen(Run(steps[..k]).value) {
        OrderlyPrefix(steps, k);
        OrderlyShape(steps[..k]);
        ShapeIsOne(Run(steps[..k]).value);
      }
    }
  }
}
