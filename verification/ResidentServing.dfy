/** What a client finds: while control actions do not overlap, a started resident has an engine. */
module ResidentServing {
  import opened Text
  import opened Resident
  import opened ResidentProofs
  import opened ResidentRuns
  import opened ResidentOrder

  ghost predicate Open(s: State, o: Option<EngineId>) {
    o.Some? && o.value in s.engines && !s.engines[o.value].closed
  }

  /** Started, not closed and not quiesced, it has an open engine; not started, it has none. */
  ghost predicate Calm(s: State) {
    && (s.serving && !s.closed && !s.quiesced ==> Open(s, s.engine))
    && (!s.serving ==> s.engine == None && !s.quiesced)
  }

  /** What holds beside that while a control action is under way. */
  ghost predicate Keeps(s: State, a: Action) {
    match a
    case QuiesceDrain(_) => s.quiesced && s.serving
    case QuiesceClose(_) => s.quiesced && s.serving
    case QuiesceDetach => s.quiesced && s.serving
    case Start(resume) => s.serving == resume
    case Attach(e, resume) => Open(s, Some(e)) && s.serving == resume
    case Unquiesce => Open(s, s.engine) && s.serving
    case CloseEngine(_) => s.closed && s.serving
  }

  ghost predicate Serving(s: State) {
    && Calm(s)
    && (forall a, b :: a in s.actions && b in s.actions ==> a == b)
    && (forall a :: a in s.actions ==> Keeps(s, s.actions[a]))
  }

  lemma TouchKeepsServing(s: State, t: State, r: RequestId, own: Option<EngineId>)
    requires Touches(s, t, r, own) && Serving(s)
    ensures Serving(t)
  {
    assert forall o :: Open(s, o) ==> Open(t, o);
    hide Open;
    forall a | a in s.actions ensures Keeps(t, t.actions[a]) { assert Keeps(s, s.actions[a]); }
  }

  lemma BeginKeepsServing(s: State, a: ActionId, kind: Kind)
    requires Alone(s, kind) && Serving(s)
    ensures Serving(BeginAction(s, a, kind).(now := s.now + 1))
  {
  }

  /** What the state after an action's next step has to meet when that action is the only one. */
  ghost predicate GoesOn(t: State, a: ActionId) {
    && Calm(t) && (forall b :: b in t.actions ==> b == a)
    && (a in t.actions ==> Keeps(t, t.actions[a]))
  }

  lemma GoesOnServing(t: State, a: ActionId)
    requires GoesOn(t, a)
    ensures Serving(t)
  {
    hide Calm, Keeps;
  }

  lemma CloseGoesOn(s: State, a: ActionId, born: Option<EngineId>)
    requires Enabled(s, Proceed(a, born)) && (s.actions[a].QuiesceClose? || s.actions[a].CloseEngine?)
    requires GoesOn(s, a)
    ensures GoesOn(ProceedAction(s, a, born).(now := s.now + 1), a)
  {
    hide Open;
  }

  lemma StartGoesOn(s: State, a: ActionId, born: Option<EngineId>)
    requires Enabled(s, Proceed(a, born)) && s.actions[a].Start? && GoesOn(s, a)
    ensures GoesOn(ProceedAction(s, a, born).(now := s.now + 1), a)
  {
    if born.Some? {
      var u := SetEngine(s, born.value, Engine(None, false, false, {}, s.now, 0));
      assert Open(u, born) && (Open(s, s.engine) ==> Open(u, s.engine));
    }
  }

  lemma OtherGoesOn(s: State, a: ActionId, born: Option<EngineId>)
    requires Enabled(s, Proceed(a, born))
    requires !s.actions[a].QuiesceClose? && !s.actions[a].CloseEngine? && !s.actions[a].Start?
    requires GoesOn(s, a)
    ensures GoesOn(ProceedAction(s, a, born).(now := s.now + 1), a)
  {
  }

  lemma ProceedKeepsServing(s: State, a: ActionId, born: Option<EngineId>)
    requires Enabled(s, Proceed(a, born)) && Serving(s)
    ensures Serving(ProceedAction(s, a, born).(now := s.now + 1))
  {
    hide Calm, Keeps, ProceedAction;
    if s.actions[a].QuiesceClose? || s.actions[a].CloseEngine? {
      CloseGoesOn(s, a, born);
    } else if s.actions[a].Start? {
      StartGoesOn(s, a, born);
    } else {
      OtherGoesOn(s, a, born);
    }
    hide Serving;
    GoesOnServing(ProceedAction(s, a, born).(now := s.now + 1), a);
  }

  lemma NextKeepsServing(s: State, step: Step)
    requires Inv(s) && Enabled(s, step) && (step.Begin? ==> Alone(s, step.kind)) && Serving(s)
    ensures Serving(Next(s, step))
  {
    hide Serving, Alone, BeginAction, ProceedAction;
    match step {
      case Begin(a, kind) => BeginKeepsServing(s, a, kind);
      case Proceed(a, born) => ProceedKeepsServing(s, a, born);
      case _ =>
        hide Next, Enabled, Inv;
        var own := RequestStepTouches(s, step);
        hide Touches;
        TouchKeepsServing(s, Next(s, step), step.r, own);
    }
  }

  lemma {:induction false} PacedServing(steps: seq<Step>)
    requires Paced(steps) && Run(steps).Some?
    ensures Serving(Run(steps).value)
    decreases |steps|
  {
    if steps != [] {
      hide Enabled, Next, Inv, Serving, Alone;
      var last := |steps| - 1;
      PacedServing(steps[..last]);
      RunKeepsInv(steps[..last]);
      NextKeepsServing(Run(steps[..last]).value, steps[last]);
    }
  }

  /** With control actions that do not overlap and requests that interleave freely, a stray resume
      included: a started resident that is neither closed nor quiesced has an engine, and the engine
      is open. */
  lemma ServingHasEngine(steps: seq<Step>)
    requires Paced(steps) && Run(steps).Some?
    requires var s := Run(steps).value; s.serving && !s.closed && !s.quiesced
    ensures var s := Run(steps).value;
            s.engine.Some? && s.engine.value in s.engines && !s.engines[s.engine.value].closed
  {
    hide Run, Keeps;
    PacedServing(steps);
  }
}
