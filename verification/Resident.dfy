/** The resident server and its engines as interleaved atomic steps
    (internal/resident/server.go, internal/cbmexec/child.go).

    A step is one critical section, or one event the code waits for.  Requests, the goroutine
    that `CallTimeout` starts for each of them, and control actions run side by side. */
module Resident {
  import opened Text

  type EngineId = nat
  type RequestId = nat
  type ActionId = nat

  /** A running engine.  `mu` is the request whose call holds `Child.mu`; `outstanding` are the
      requests written to its pipe and not answered.  The instants are for the proofs. */
  datatype Engine = Engine(
    mu: Option<RequestId>,
    closed: bool,
    dead: bool,
    outstanding: set<RequestId>,
    started: nat,
    closedAt: nat)

  /** Where `serveConn` stands. */
  datatype Phase =
    | Queued(eng: EngineId)      // past the checks, waiting for `one`
    | Holding(eng: EngineId)     // inside CallTimeout, holding `one`
    | Replied(ok: bool)

  /** Where the goroutine inside `CallTimeout` stands. */
  datatype Call =
    | Idle
    | Locking(eng: EngineId)                                 // waiting for Child.mu
    | Sent(eng: EngineId, at: nat)                           // request written, Child.mu held
    | Done(eng: EngineId, ok: bool, sentAt: nat, doneAt: nat)

  datatype Request = Request(phase: Phase, call: Call)

  /** A control action between two of its critical sections. */
  datatype Action =
    | QuiesceDrain(eng: Option<EngineId>)     // flag set, waiting for `one`
    | QuiesceClose(eng: Option<EngineId>)     // drained, about to close the engine
    | QuiesceDetach                           // closed, about to drop the engine
    | Start(resume: bool)                     // about to start an engine
    | Attach(born: EngineId, resume: bool)    // started, about to attach it
    | Unquiesce                               // attached, about to clear the flag
    | CloseEngine(eng: Option<EngineId>)      // server marked closed, about to close the engine

  datatype State = State(
    now: nat,
    engines: map<EngineId, Engine>,
    engine: Option<EngineId>,
    quiesced: bool,
    closed: bool,
    serving: bool,                            // Serve got past ensureEngine
    one: Option<RequestId>,
    requests: map<RequestId, Request>,
    actions: map<ActionId, Action>)

  const INIT := State(0, map[], None, false, false, false, None, map[], map[])

  datatype Step =
    // requests
    | Arrive(r: RequestId)
    | TakeOne(r: RequestId)
    | Timeout(r: RequestId)
    | Collect(r: RequestId)
    // the goroutine of a request
    | Lock(r: RequestId, written: bool)
    | Answer(r: RequestId, ok: bool)
    | Die(r: RequestId)
    // control
    | Begin(a: ActionId, kind: Kind)
    | Proceed(a: ActionId, born: Option<EngineId>)

  datatype Kind = Serve | Quiesce | Resume | Close

  // ---------- what each step does ----------

  function SetRequest(s: State, r: RequestId, q: Request): State { s.(requests := s.requests[r := q]) }

  function SetEngine(s: State, e: EngineId, x: Engine): State { s.(engines := s.engines[e := x]) }

  function SetAction(s: State, a: ActionId, x: Action): State { s.(actions := s.actions[a := x]) }

  function EndAction(s: State, a: ActionId): State { s.(actions := s.actions - {a}) }

  /** `Child.Close`: only with Child.mu free. */
  predicate CanClose(s: State, e: EngineId) { e in s.engines && s.engines[e].mu == None }

  function CloseChild(s: State, e: EngineId): State
    requires e in s.engines
  {
    var x := s.engines[e];
    if x.closed then s else SetEngine(s, e, x.(closed := true, closedAt := s.now))
  }

  predicate Enabled(s: State, step: Step) {
    match step
    case Arrive(r) => r !in s.requests
    case TakeOne(r) => r in s.requests && s.requests[r].phase.Queued? && s.one == None
    case Timeout(r) => r in s.requests && s.requests[r].phase.Holding?
    case Collect(r) => r in s.requests && s.requests[r].phase.Holding? && s.requests[r].call.Done?
    case Lock(r, written) =>
      r in s.requests && s.requests[r].call.Locking? && s.requests[r].call.eng in s.engines
      && s.engines[s.requests[r].call.eng].mu == None
    case Answer(r, ok) => r in s.requests && s.requests[r].call.Sent? && s.requests[r].call.eng in s.engines
    case Die(r) => r in s.requests && s.requests[r].call.Sent? && s.requests[r].call.eng in s.engines
    case Begin(a, kind) => a !in s.actions && (kind.Serve? ==> !s.serving)
    case Proceed(a, born) =>
      a in s.actions &&
      match s.actions[a]
      case QuiesceDrain(_) => s.one == None
      case QuiesceClose(e) => e.Some? ==> CanClose(s, e.value)
      case CloseEngine(e) => e.Some? ==> CanClose(s, e.value)
      case Start(_) => born.Some? ==> born.value !in s.engines
      case _ => true
  }

  /** The state after a step; every step takes one instant. */
  function Next(s: State, step: Step): State
    requires Enabled(s, step)
  {
    Apply(s, step).(now := s.now + 1)
  }

  function Apply(s: State, step: Step): State
    requires Enabled(s, step)
  {
    match step
    case Arrive(r) =>
      // One snapshot of the flags and the engine, taken together under `mu`.
      SetRequest(s, r, Request(
        if s.closed || s.quiesced || s.engine == None then Replied(false) else Queued(s.engine.value), Idle))
    case TakeOne(r) =>
      var e := s.requests[r].phase.eng;
      SetRequest(s, r, Request(Holding(e), Locking(e))).(one := Some(r))
    case Timeout(r) =>
      SetRequest(s, r, s.requests[r].(phase := Replied(false))).(one := None)
    case Collect(r) =>
      SetRequest(s, r, s.requests[r].(phase := Replied(s.requests[r].call.ok))).(one := None)
    case Lock(r, written) =>
      var e := s.requests[r].call.eng;
      var x := s.engines[e];
      if x.dead || x.closed then Advance(s, r, Done(e, false, s.now, s.now), x)
      else if !written then Advance(s, r, Done(e, false, s.now, s.now), x.(dead := true))
      else Advance(s, r, Sent(e, s.now), x.(mu := Some(r), outstanding := x.outstanding + {r}))
    case Answer(r, ok) => Finish(s, r, ok, false)
    case Die(r) => Finish(s, r, false, true)
    case Begin(a, kind) => BeginAction(s, a, kind)
    case Proceed(a, born) => ProceedAction(s, a, born)
  }

  /** The call of `r` moves on, and its engine with it. */
  function Advance(s: State, r: RequestId, call: Call, x: Engine): State
    requires r in s.requests && !call.Idle?
  {
    SetEngine(SetRequest(s, r, s.requests[r].(call := call)), call.eng, x)
  }

  /** The call of `r` ends and releases Child.mu. */
  function Finish(s: State, r: RequestId, ok: bool, died: bool): State
    requires r in s.requests && s.requests[r].call.Sent? && s.requests[r].call.eng in s.engines
  {
    var c := s.requests[r].call;
    var x := s.engines[c.eng];
    Advance(s, r, Done(c.eng, ok, c.at, s.now),
      x.(mu := None, outstanding := x.outstanding - {r}, dead := x.dead || died))
  }

  function BeginAction(s: State, a: ActionId, kind: Kind): State {
    match kind
    case Serve => SetAction(s, a, Start(false))
    case Quiesce => SetAction(s.(quiesced := true), a, QuiesceDrain(s.engine))
    case Resume => SetAction(s, a, Start(true))
    case Close => if s.closed then s else SetAction(s.(closed := true, engine := None), a, CloseEngine(s.engine))
  }

  function ProceedAction(s: State, a: ActionId, born: Option<EngineId>): State
    requires a in s.actions && Enabled(s, Proceed(a, born))
  {
    match s.actions[a]
    case QuiesceDrain(e) => SetAction(s, a, QuiesceClose(e))
    case QuiesceClose(e) => SetAction(if e.Some? then CloseChild(s, e.value) else s, a, QuiesceDetach)
    case QuiesceDetach => EndAction(s.(engine := None), a)
    case Start(resume) =>
      // A start that fails leaves everything as it was: a resume stays quiesced.
      if born == None then EndAction(s, a)
      else SetAction(SetEngine(s, born.value, Engine(None, false, false, {}, s.now, 0)), a, Attach(born.value, resume))
    case Attach(e, resume) =>
      if resume then SetAction(s.(engine := Some(e)), a, Unquiesce)
      else EndAction(s.(engine := Some(e), serving := true), a)
    case Unquiesce => EndAction(s.(quiesced := false), a)
    case CloseEngine(e) => EndAction(if e.Some? then CloseChild(s, e.value) else s, a)
  }

  // ---------- runs ----------

  /** `None` when some step was not possible when it was taken. */
  function Run(steps: seq<Step>): Option<State>
    decreases |steps|
  {
    if steps == [] then Some(INIT)
    else
      var last := |steps| - 1;
      match Run(steps[..last])
      case Some(s) => if Enabled(s, steps[last]) then Some(Next(s, steps[last])) else None
      case None => None
  }
}
