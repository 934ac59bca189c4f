/** One long-lived engine process and the calls made to it in turn
    (internal/cbmexec/child.go). */
module Child {
  import opened Text
  import opened Json
  import opened Lines

  // ---------- reading the child's output ----------

  /** `bytesTrim` */
  function DropTail(s: string): string {
    if s != "" && JsonSpace(s[|s| - 1]) then DropTail(s[..|s| - 1]) else s
  }

  function BytesTrim(s: string): string { DropTail(SkipSpace(s)) }

  /** What the reply loop sees in a line. */
  datatype Frame =
    | Blank
    | Noise                                                  // not JSON, or no id: a log line or a notification
    | Reply(id: Option<int>, error: Option<Json>, result: Option<Json>)

  function IdOf(v: Json): Option<int> {
    match v
    case Num(lit) => IntValue(lit)
    case Null => Some(0)
    case _ => None
  }

  function Member(m: map<string, Json>, k: string): Option<Json> { if k in m then Some(m[k]) else None }

  function Classify(line: string): Frame {
    var text := BytesTrim(line);
    if text == "" then Blank
    else
      match Decode(text)
      case Some(Obj(m)) => if "id" in m then Reply(IdOf(m["id"]), Member(m, "error"), Member(m, "result")) else Noise
      case _ => Noise
  }

  predicate Carries(line: string, id: int) {
    var f := Classify(line);
    f.Reply? && f.id == Some(id)
  }

  // ---------- one call ----------

  datatype Outcome =
    | Result(value: Option<Json>)
    | Refused(error: Json)
    | Dead(reason: string)
    | Closed

  const ENDED := "cbm child ended"

  datatype Awaited = Got(outcome: Outcome, rest: string) | Ended

  function FrameOutcome(f: Frame): Outcome
    requires f.Reply?
  {
    if f.error.Some? then Refused(f.error.value) else Result(f.result)
  }

  /** Reading until the reply that carries `id`. */
  function Await(out: string, id: int): Awaited
    decreases |out|
  {
    var r := ReadLine(out);
    if r.line == "" then Ended
    else if Carries(r.line, id) then Got(FrameOutcome(Classify(r.line)), r.rest)
    else if r.eof && !Classify(r.line).Reply? then Ended
    else Await(r.rest, id)
  }

  datatype State = State(id: int, closed: bool, dead: Option<string>, out: string, sent: seq<int>)

  /** One call: `fault` is why the write failed, if it did. */
  function CallSpec(s: State, fault: Option<string>): (State, Outcome) {
    if s.dead.Some? then (s, Dead(s.dead.value))
    else if s.closed then (s, Closed)
    else if fault.Some? then (s.(id := s.id + 1, dead := fault), Dead(fault.value))
    else
      var asked := s.(id := s.id + 1, sent := s.sent + [s.id + 1]);
      match Await(s.out, s.id + 1)
      case Got(outcome, rest) => (asked.(out := rest), outcome)
      case Ended => (asked.(out := "", dead := Some(ENDED)), Dead(ENDED))
  }

  class Child {
    var id: int
    var closed: bool
    var dead: Option<string>
    var out: string       // everything the engine writes before it exits, not yet read
    var sent: seq<int>    // ids of the requests written to it

    ghost function Now(): State
      reads this
    {
      State(id, closed, dead, out, sent)
    }

    constructor (out: string)
      ensures Now() == State(0, false, None, out, [])
    {
      this.id, this.closed, this.dead, this.out, this.sent := 0, false, None, out, [];
    }

    /** `fail`: the first death is the one that is kept. */
    method Fail(reason: string) returns (outcome: Outcome)
      modifies this`dead
      ensures outcome == Dead(reason)
      ensures dead == if old(dead).Some? then old(dead) else Some(reason)
    {
      if dead == None { dead := Some(reason); }
      outcome := Dead(reason);
    }

    /** `call`: see `CallDone`. */
    method Call(fault: Option<string>) returns (outcome: Outcome)
      modifies this
      ensures (Now(), outcome) == CallSpec(old(Now()), fault)
      ensures CallDone(old(Now()), fault, Now(), outcome)
    {
      hide Await, Classify, Carries, CallDone;
      CallIsDone(Now(), fault);
      if dead.Some? { return Dead(dead.value); }
      if closed { return Closed; }
      id := id + 1;
      if fault.Some? {
        outcome := Fail(fault.value);
        return;
      }
      sent := sent + [id];
      while true
        invariant Await(out, id) == Await(old(out), id)
        invariant dead == None && !closed && id == old(id) + 1 && sent == old(sent) + [id]
        decreases |out|
      {
        var r := ReadLine(out);
        AwaitStep(out, id);
        out := r.rest;
        if r.eof && r.line == "" {
          outcome := Fail(ENDED);
          return;
        }
        var f := Classify(r.line);
        FrameOf(r.line, id);
        if f.Blank? || f.Noise? {
          if r.eof {
            outcome := Fail(ENDED);
            return;
          }
          continue;
        }
        if f.id != Some(id) { continue; }
        outcome := if f.error.Some? then Refused(f.error.value) else Result(f.result);
        return;
      }
    }

    /** `Close`: only the flag matters to later calls. */
    method Close()
      modifies this`closed
      ensures closed
    {
      if closed { return; }
      closed := true;
    }
  }

  lemma AwaitStep(out: string, id: int)
    ensures var r := ReadLine(out);
            Await(out, id) == if r.line == "" then Ended
                              else if Carries(r.line, id) then Got(FrameOutcome(Classify(r.line)), r.rest)
                              else if r.eof && !Classify(r.line).Reply? then Ended
                              else Await(r.rest, id)
    ensures var r := ReadLine(out);
            (r.line == "" ==> r.eof) && (r.line != "" ==> |r.rest| < |out|) && (r.eof ==> r.rest == "")
  {
    hide Classify, Carries;
  }

  lemma FrameOf(line: string, id: int)
    ensures Carries(line, id) == (Classify(line).Reply? && Classify(line).id == Some(id))
  {
    hide Classify;
  }

  // ---------- what a line says ----------

  predicate Space(c: char) { c in " \t\n\r" }

  predicate AllSpace(s: string) { forall i :: 0 <= i < |s| ==> Space(s[i]) }

  /** `t` is the line without the white space around it. */
  ghost predicate TrimmedTo(line: string, t: string) {
    && (t != "" ==> !Space(t[0]) && !Space(t[|t| - 1]))
    && exists a, b :: AllSpace(a) && AllSpace(b) && line == a + (t + b)
  }

  lemma {:induction false} SkipSpaceIs(s: string)
    ensures var t := SkipSpace(s); |t| <= |s| && AllSpace(s[..|s| - |t|]) && s[|s| - |t|..] == t
    decreases |s|
  {
    if s != "" && JsonSpace(s[0]) {
      SkipSpaceIs(s[1..]);
      var n := |s| - |SkipSpace(s)|;
      assert s[..n] == [s[0]] + s[1..][..n - 1];
    }
  }

  lemma {:induction false} DropTailIs(s: string)
    ensures var t := DropTail(s);
            t <= s && AllSpace(s[|t|..]) && (t != "" ==> !Space(t[|t| - 1]))
    decreases |s|
  {
    if s != "" && JsonSpace(s[|s| - 1]) {
      var u := s[..|s| - 1];
      DropTailIs(u);
      var t := DropTail(s);
      assert s[|t|..] == u[|t|..] + [s[|s| - 1]];
    }
  }

  lemma BytesTrimIs(line: string)
    ensures TrimmedTo(line, BytesTrim(line))
  {
    hide DropTail;
    var u := SkipSpace(line);
    SkipSpaceIs(line);
    var t := DropTail(u);
    DropTailIs(u);
    if u != "" { assert !Space(u[0]); }
    var a, b := line[..|line| - |u|], u[|t|..];
    assert t + b == u && a + u == line;
    if t != "" { assert t[0] == u[0]; }
  }

  /** There is only one way to trim a line. */
  lemma TrimmedOnce(line: string, t: string, u: string)
    requires TrimmedTo(line, t) && TrimmedTo(line, u)
    ensures t == u
  {
    var a, b :| AllSpace(a) && AllSpace(b) && line == a + (t + b);
    var c, d :| AllSpace(c) && AllSpace(d) && line == c + (u + d);
    TrimmedAt(line, a, t, b);
    TrimmedAt(line, c, u, d);
    if t == "" {
      Uncovered(line, c, u, d);
    } else if u == "" {
      Uncovered(line, a, t, b);
    } else {
      Ends(line, a, t, b, c, u, d);
      Ends(line, c, u, d, a, t, b);
      assert t == line[|a|..|a| + |t|] && u == line[|c|..|c| + |u|];
    }
  }

  lemma TrimmedAt(line: string, a: string, t: string, b: string)
    requires line == a + (t + b)
    ensures |line| == |a| + |t| + |b| && line[..|a|] == a && line[|a|..|a| + |t|] == t && line[|a| + |t|..] == b
    ensures t == "" && AllSpace(a) && AllSpace(b) ==> AllSpace(line)
    ensures forall i :: 0 <= i < |a| ==> line[i] == a[i]
    ensures forall i :: |a| <= i < |a| + |t| ==> line[i] == t[i - |a|]
    ensures forall i :: |a| + |t| <= i < |line| ==> line[i] == b[i - |a| - |t|]
  {
  }

  lemma Uncovered(line: string, a: string, t: string, b: string)
    requires line == a + (t + b) && AllSpace(line) && (t != "" ==> !Space(t[0]))
    ensures t == ""
  {
    TrimmedAt(line, a, t, b);
    assert forall i :: 0 <= i < |line| ==> Space(line[i]);
  }

  /** What is trimmed off on either side is no longer for one way than for another. */
  lemma Ends(line: string, a: string, t: string, b: string, c: string, u: string, d: string)
    requires line == a + (t + b) && line == c + (u + d) && t != "" && u != ""
    requires AllSpace(a) && AllSpace(b) && !Space(u[0]) && !Space(u[|u| - 1])
    ensures |a| <= |c| && |a| + |t| >= |c| + |u|
  {
    TrimmedAt(line, a, t, b);
    TrimmedAt(line, c, u, d);
    assert line[|c|] == u[0] && line[|c| + |u| - 1] == u[|u| - 1];
    assert forall i :: 0 <= i < |a| || |a| + |t| <= i < |line| ==> Space(line[i]);
  }

  /** The line is an object, `m`, whose member `id` is the number, or for 0 also null. */
  ghost predicate ReplyTo(line: string, id: int, m: map<string, Json>) {
    && (exists t :: TrimmedTo(line, t) && Decode(t) == Some(Obj(m)))
    && "id" in m && ((m["id"].Num? && IntValue(m["id"].lit) == Some(id)) || (m["id"].Null? && id == 0))
  }

  ghost predicate IsReply(line: string, id: int) { exists m :: ReplyTo(line, id, m) }

  /** What a reply answers: its error when it has one, else its result, if it has that. */
  function AnswerOf(m: map<string, Json>): Outcome {
    if "error" in m then Refused(m["error"])
    else if "result" in m then Result(Some(m["result"]))
    else Result(None)
  }

  lemma Trimmed(line: string, t: string)
    requires TrimmedTo(line, t)
    ensures t == BytesTrim(line)
  {
    BytesTrimIs(line);
    TrimmedOnce(line, t, BytesTrim(line));
  }

  lemma EmptyDecodes()
    ensures Decode("") == None
  {
  }

  lemma CarriesIs(line: string, id: int)
    ensures Carries(line, id) <==> IsReply(line, id)
    ensures forall m :: ReplyTo(line, id, m) ==> Classify(line).Reply? && FrameOutcome(Classify(line)) == AnswerOf(m)
  {
    hide Decode, BytesTrim, TrimmedTo, IntValue;
    BytesTrimIs(line);
    EmptyDecodes();
    var text := BytesTrim(line);
    forall m | ReplyTo(line, id, m)
      ensures Carries(line, id) && Classify(line).Reply? && FrameOutcome(Classify(line)) == AnswerOf(m)
    {
      var t :| TrimmedTo(line, t) && Decode(t) == Some(Obj(m));
      Trimmed(line, t);
    }
    if Carries(line, id) {
      assert Decode(text).Some? && Decode(text).value.Obj?;
      assert ReplyTo(line, id, Decode(text).value.fields);
    }
  }

  // ---------- which line answers a call ----------

  /** Line `k` is the first reply with the id; it is the answer, and the lines after it are left. */
  ghost predicate AnsweredBy(ls: seq<string>, k: nat, id: int, outcome: Outcome, rest: string) {
    && k < |ls| && (forall j :: 0 <= j < k ==> !IsReply(ls[j], id))
    && (exists m :: ReplyTo(ls[k], id, m) && outcome == AnswerOf(m))
    && LinesOf(rest) == ls[k + 1..]
  }

  ghost predicate NoReply(ls: seq<string>, id: int) { forall j :: 0 <= j < |ls| ==> !IsReply(ls[j], id) }

  /** The answer is the first reply with the call's id, whatever lines stand before it; everything up to
      it is consumed and nothing after it.  Without such a line the call ends. */
  lemma {:induction false} FirstOwnFrame(out: string, id: int) returns (k: nat)
    ensures match Await(out, id)
            case Got(outcome, rest) => AnsweredBy(LinesOf(out), k, id, outcome, rest)
            case Ended => NoReply(LinesOf(out), id)
    decreases |out|
  {
    hide Classify, Carries, Await, IsReply, ReplyTo, FrameOutcome;
    AwaitStep(out, id);
    k := 0;
    if out != "" {
      var r := ReadLine(out);
      FrameOf(r.line, id);
      CarriesIs(r.line, id);
      var rs := LinesOf(r.rest);
      var ls := [r.line] + rs;
      assert LinesOf(out) == ls && ls[1..] == rs;
      if Carries(r.line, id) {
        var m := SomeReply(r.line, id);
      } else {
        var k' := FirstOwnFrame(r.rest, id);
        k := k' + 1;
        forall j | 0 < j < |ls| ensures ls[j] == rs[j - 1] {}
        if Await(out, id).Got? { Shift(r.line, rs, k', id, Await(out, id).outcome, Await(out, id).rest); }
      }
    } else {
      NoLines();
    }
  }

  lemma NoLines()
    ensures LinesOf("") == []
  {
  }

  lemma SomeReply(line: string, id: int) returns (m: map<string, Json>)
    requires IsReply(line, id)
    ensures ReplyTo(line, id, m)
  {
    hide ReplyTo;
    m :| ReplyTo(line, id, m);
  }

  lemma Shift(line: string, rs: seq<string>, k: nat, id: int, outcome: Outcome, rest: string)
    requires !IsReply(line, id) && AnsweredBy(rs, k, id, outcome, rest)
    ensures AnsweredBy([line] + rs, k + 1, id, outcome, rest)
  {
    hide IsReply, ReplyTo;
    var ls := [line] + rs;
    assert ls[k + 2..] == rs[k + 1..];
    forall j | 0 <= j < k + 1 ensures !IsReply(ls[j], id) { if j > 0 { assert ls[j] == rs[j - 1]; } }
  }

  /** What one call does: nothing after a death, which it reports, or after a close; a failed write is a
      death; otherwise its id goes onto the wire and it is answered by the first reply with that id, or
      the output ends without one, which is a death too. */
  ghost predicate CallDone(s: State, fault: Option<string>, t: State, outcome: Outcome) {
    if s.dead.Some? then t == s && outcome == Dead(s.dead.value)
    else if s.closed then t == s && outcome == Closed
    else
      && t.id == s.id + 1 && !t.closed
      && if fault.Some? then t.sent == s.sent && t.out == s.out && t.dead == fault && outcome == Dead(fault.value)
         else
           && t.sent == s.sent + [t.id]
           && if t.dead == None then exists k: nat :: AnsweredBy(LinesOf(s.out), k, t.id, outcome, t.out)
              else NoReply(LinesOf(s.out), t.id) && t.out == "" && t.dead == Some(ENDED) && outcome == Dead(ENDED)
  }

  lemma CallIsDone(s: State, fault: Option<string>)
    ensures var (t, outcome) := CallSpec(s, fault); CallDone(s, fault, t, outcome)
  {
    hide Await, AnsweredBy, NoReply;
    if s.dead == None && !s.closed && fault == None { var k := FirstOwnFrame(s.out, s.id + 1); }
  }

  // ---------- a run of calls ----------

  function Calls(s: State, faults: seq<Option<string>>): (State, seq<Outcome>)
    decreases |faults|
  {
    if faults == [] then (s, [])
    else
      var (s1, o) := CallSpec(s, faults[0]);
      var (s2, os) := Calls(s1, faults[1..]);
      (s2, [o] + os)
  }

  ghost predicate Fresh(s: State) { Increasing(s.sent) && forall i :: 0 <= i < |s.sent| ==> s.sent[i] <= s.id }

  lemma CallIncreases(s: State, fault: Option<string>)
    requires Fresh(s)
    ensures var t := CallSpec(s, fault).0; Fresh(t) && s.sent <= t.sent && s.id <= t.id
  {
    hide Await;
  }

  /** Over any run of calls the ids on the wire strictly increase, so no reply to an earlier
      call can pass for the reply to a later one. */
  lemma {:induction false} IdsIncrease(s: State, faults: seq<Option<string>>)
    requires Fresh(s)
    ensures Fresh(Calls(s, faults).0) && s.sent <= Calls(s, faults).0.sent && s.id <= Calls(s, faults).0.id
    decreases |faults|
  {
    if faults != [] {
      hide Await, CallSpec, Fresh;
      CallIncreases(s, faults[0]);
      IdsIncrease(CallSpec(s, faults[0]).0, faults[1..]);
    }
  }

  /** The first death is returned unchanged by every later call, and nothing more is written. */
  lemma {:induction false} DeathIsLatched(s: State, faults: seq<Option<string>>)
    requires s.dead.Some?
    ensures Calls(s, faults).0 == s
    ensures |Calls(s, faults).1| == |faults| && forall i :: 0 <= i < |faults| ==>
              Calls(s, faults).1[i] == Dead(s.dead.value)
    decreases |faults|
  {
    if faults != [] { DeathIsLatched(s, faults[1..]); }
  }

  /** A call that reports a death leaves that death latched. */
  lemma DeathIsReported(s: State, fault: Option<string>)
    ensures CallSpec(s, fault).1.Dead? ==> CallSpec(s, fault).0.dead == Some(CallSpec(s, fault).1.reason)
  {
    hide Classify, Carries, Await;
    AwaitIsNotDead(s.out, s.id + 1);
  }

  lemma {:induction false} AwaitIsNotDead(out: string, id: int)
    ensures Await(out, id).Got? ==> !Await(out, id).outcome.Dead? && !Await(out, id).outcome.Closed?
    decreases |out|
  {
    hide Classify, Carries, Await;
    AwaitStep(out, id);
    if out != "" { AwaitIsNotDead(ReadLine(out).rest, id); }
  }

  // ---------- the tail of stderr ----------

  function Last(s: string, cap: nat): (t: string)
    ensures |t| <= cap && (|t| == cap || |t| == |s|) && |t| <= |s| && t == s[|s| - |t|..]
  {
    if |s| > cap then s[|s| - cap..] else s
  }

  /** `tailBuffer` */
  class TailBuffer {
    var buf: string
    const cap: nat

    constructor (cap: nat)
      ensures buf == "" && this.cap == cap
    {
      buf := "";
      this.cap := cap;
    }

    method Write(p: string) returns (n: nat)
      modifies this
      ensures n == |p| && buf == Last(old(buf) + p, cap)
    {
      buf := buf + p;
      if |buf| > cap { buf := buf[|buf| - cap..]; }
      n := |p|;
    }
  }

  function Written(ps: seq<string>): string { if ps == [] then "" else Written(ps[..|ps| - 1]) + ps[|ps| - 1] }

  function Buffered(ps: seq<string>, cap: nat): string {
    if ps == [] then "" else Last(Buffered(ps[..|ps| - 1], cap) + ps[|ps| - 1], cap)
  }

  /** After any writes the buffer holds exactly the last `cap` bytes of everything written. */
  lemma {:induction false} TailIsLast(ps: seq<string>, cap: nat)
    ensures Buffered(ps, cap) == Last(Written(ps), cap)
    decreases |ps|
  {
    if ps != [] {
      var before, p := Written(ps[..|ps| - 1]), ps[|ps| - 1];
      TailIsLast(ps[..|ps| - 1], cap);
      hide Last;
      LastTwice(before, p, cap);
    }
  }

  lemma LastTwice(before: string, p: string, cap: nat)
    ensures Last(Last(before, cap) + p, cap) == Last(before + p, cap)
  {
    if |before| > cap {
      var k := |before| - cap;
      var a, b := before[k..] + p, before + p;
      assert a == b[k..];
      assert a[|p|..] == b[k + |p|..];
      assert Last(a, cap) == a[|p|..] && Last(b, cap) == b[k + |p|..];
    }
  }
}
