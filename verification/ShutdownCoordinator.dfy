/**
 Ordered shutdown: components register for a token, signal once that they are done, and
 `join` cancels the frontend when all of them have signalled.

 A step of any component, of the tracked tasks or of any `join` may come at any time; a
 step that is not possible changes nothing.
 */
module ShutdownCoordinator {
  import opened Basics

  /** `armed`: the completion sender has not been taken yet; `alive`: the token has not
      been dropped; `tracked`: the task waiting for the signal has not ended. */
  datatype Token = Token(armed: bool, alive: bool, tracked: bool)

  datatype Join = Waiting | WaitOver | Finished

  datatype Event = Registered(id: nat) | Signalled(id: nat) | WaitEnded | FrontendCancelled

  datatype Step =
    | Register
    | Complete(id: nat)
    | DropToken(id: nat)
    | TaskEnds(id: nat)
    | TriggerShutdown
    | BeginJoin
    | WakeJoin(j: nat)
    | CancelFrontend(j: nat)

  /** The tokens that have not signalled yet. */
  function Outstanding(tokens: seq<Token>): nat {
    if tokens == [] then 0
    else Outstanding(tokens[..|tokens| - 1]) + (if tokens[|tokens| - 1].armed then 1 else 0)
  }

  lemma {:induction false} OutstandingUpdate(tokens: seq<Token>, id: nat, t: Token)
    requires id < |tokens|
    ensures Outstanding(tokens[id := t]) ==
            Outstanding(tokens) - (if tokens[id].armed then 1 else 0) + (if t.armed then 1 else 0)
  {
    var n := |tokens| - 1;
    if id < n {
      OutstandingUpdate(tokens[..n], id, t);
      assert tokens[id := t][..n] == tokens[..n][id := t];
    } else {
      assert tokens[id := t][..n] == tokens[..n];
    }
  }

  lemma OutstandingMore(tokens: seq<Token>, t: Token)
    ensures Outstanding(tokens + [t]) == Outstanding(tokens) + (if t.armed then 1 else 0)
  {
    assert (tokens + [t])[..|tokens|] == tokens;
  }

  lemma {:induction false} NoneOutstanding(tokens: seq<Token>)
    ensures Outstanding(tokens) == 0 <==> forall i :: 0 <= i < |tokens| ==> !tokens[i].armed
  {
    if tokens != [] {
      NoneOutstanding(tokens[..|tokens| - 1]);
    }
  }

  class ShutdownManager {
    var frontend: bool
    var backend: bool
    var closed: bool
    var tokens: seq<Token>
    var joins: seq<Join>
    var log: seq<Event>

    /** A token's task ends, and it is dropped, only after its sender was taken. */
    ghost predicate Valid()
      reads this
    {
      && (forall id :: 0 <= id < |tokens| && tokens[id].armed ==> tokens[id].tracked && tokens[id].alive)
      && (joins != [] ==> closed)
    }

    constructor ()
      ensures Valid() && tokens == [] && joins == [] && log == [] && !frontend && !backend
    {
      frontend, backend, closed, tokens, joins, log := false, false, false, [], [], [];
    }

    method RegisterToken() returns (id: nat)
      requires Valid()
      modifies this`tokens, this`log
      ensures Valid()
      ensures id == |old(tokens)| && tokens == old(tokens) + [Token(true, true, true)]
      ensures log == old(log) + [Registered(id)]
      ensures Outstanding(tokens) == Outstanding(old(tokens)) + 1
    {
      id := |tokens|;
      OutstandingMore(tokens, Token(true, true, true));
      tokens := tokens + [Token(true, true, true)];
      log := log + [Registered(id)];
    }

    /** Signals once, however often it is called; what is outstanding goes down with the
        first call and with no other. */
    method CompleteToken(id: nat)
      requires Valid() && id < |tokens|
      modifies this`tokens, this`log
      ensures Valid()
      ensures tokens == old(tokens)[id := old(tokens)[id].(armed := false)]
      ensures log == if old(tokens)[id].armed then old(log) + [Signalled(id)] else old(log)
      ensures Outstanding(tokens) == Outstanding(old(tokens)) - (if old(tokens)[id].armed then 1 else 0)
    {
      OutstandingUpdate(tokens, id, tokens[id].(armed := false));
      if tokens[id].armed {
        tokens := tokens[id := tokens[id].(armed := false)];
        log := log + [Signalled(id)];
      }
    }

    method Drop(id: nat)
      requires Valid() && id < |tokens|
      modifies this`tokens, this`log
      ensures Valid()
      ensures tokens == old(tokens)[id := old(tokens)[id].(armed := false, alive := false)]
      ensures log == if old(tokens)[id].armed then old(log) + [Signalled(id)] else old(log)
      ensures Outstanding(tokens) == Outstanding(old(tokens)) - (if old(tokens)[id].armed then 1 else 0)
    {
      CompleteToken(id);
      OutstandingUpdate(tokens, id, tokens[id].(alive := false));
      tokens := tokens[id := tokens[id].(alive := false)];
    }

    /** The tracked task ends after the signal. */
    method EndTask(id: nat)
      requires Valid() && id < |tokens|
      modifies this`tokens
      ensures Valid()
      ensures tokens == if old(tokens)[id].armed then old(tokens) else old(tokens)[id := old(tokens)[id].(tracked := false)]
      ensures Outstanding(tokens) == Outstanding(old(tokens))
    {
      if !tokens[id].armed {
        OutstandingUpdate(tokens, id, tokens[id].(tracked := false));
        tokens := tokens[id := tokens[id].(tracked := false)];
      }
    }

    method Shutdown()
      requires Valid()
      modifies this`backend
      ensures Valid() && backend
    {
      backend := true;
    }

    method StartJoin()
      requires Valid()
      modifies this`closed, this`joins
      ensures Valid() && closed && joins == old(joins) + [Waiting]
    {
      closed := true;
      joins := joins + [Waiting];
    }

    /** The wait ends exactly when no tracked task is left. */
    method TryEndWait(j: nat) returns (woken: bool)
      requires Valid() && j < |joins|
      modifies this`joins, this`log
      ensures Valid()
      ensures woken <==> old(joins)[j] == Waiting && forall id :: 0 <= id < |tokens| ==> !tokens[id].tracked
      ensures woken ==> Outstanding(tokens) == 0
      ensures joins == if woken then old(joins)[j := WaitOver] else old(joins)
      ensures log == if woken then old(log) + [WaitEnded] else old(log)
    {
      woken := joins[j] == Waiting && forall id :: 0 <= id < |tokens| ==> !tokens[id].tracked;
      if woken {
        NoneOutstanding(tokens);
        joins := joins[j := WaitOver];
        log := log + [WaitEnded];
      }
    }

    method FinishJoin(j: nat)
      requires Valid() && j < |joins|
      modifies this`frontend, this`joins, this`log
      ensures Valid()
      ensures old(joins)[j] == WaitOver ==> frontend && joins == old(joins)[j := Finished] && log == old(log) + [FrontendCancelled]
      ensures old(joins)[j] != WaitOver ==> frontend == old(frontend) && joins == old(joins) && log == old(log)
    {
      if joins[j] == WaitOver {
        frontend := true;
        joins := joins[j := Finished];
        log := log + [FrontendCancelled];
      }
    }
  }

  /** The progress measure of `join`: with nothing outstanding, ending the tracked tasks
      lets a waiting `join` cancel the frontend. */
  method FinishShutdown(m: ShutdownManager, j: nat)
    requires m.Valid() && j < |m.joins| && m.joins[j] == Waiting && Outstanding(m.tokens) == 0
    modifies m
    ensures m.Valid() && m.frontend && m.joins == old(m.joins)[j := Finished]
    ensures m.log == old(m.log) + [WaitEnded, FrontendCancelled]
  {
    for id := 0 to |m.tokens|
      invariant m.Valid() && m.joins == old(m.joins) && m.log == old(m.log)
      invariant |m.tokens| == |old(m.tokens)| && Outstanding(m.tokens) == 0
      invariant forall i :: 0 <= i < id ==> !m.tokens[i].tracked
    {
      NoneOutstanding(m.tokens);
      m.EndTask(id);
    }
    var woken := m.TryEndWait(j);
    m.FinishJoin(j);
  }

  // ----- what the steps alone say -------------------------------------------------------

  function ArmedAfter(armed: seq<bool>, step: Step): seq<bool> {
    match step
    case Register => armed + [true]
    case Complete(id) => if id < |armed| then armed[id := false] else armed
    case DropToken(id) => if id < |armed| then armed[id := false] else armed
    case _ => armed
  }

  /** Which of the tokens registered have not been completed or dropped. */
  function Unsignalled(steps: seq<Step>): seq<bool> {
    if steps == [] then [] else ArmedAfter(Unsignalled(steps[..|steps| - 1]), steps[|steps| - 1])
  }

  function TrackedAfter(armed: seq<bool>, tracked: seq<bool>, step: Step): seq<bool> {
    match step
    case Register => tracked + [true]
    case TaskEnds(id) => if id < |tracked| && id < |armed| && !armed[id] then tracked[id := false] else tracked
    case _ => tracked
  }

  /** Which of the tasks waiting for a signal have not ended. */
  function Tracked(steps: seq<Step>): seq<bool> {
    if steps == [] then []
    else
      var before := steps[..|steps| - 1];
      TrackedAfter(Unsignalled(before), Tracked(before), steps[|steps| - 1])
  }

  function JoinsAfter(tracked: seq<bool>, joins: seq<Join>, step: Step): seq<Join> {
    match step
    case BeginJoin => joins + [Waiting]
    case WakeJoin(j) => if j < |joins| && joins[j] == Waiting && true !in tracked then joins[j := WaitOver] else joins
    case CancelFrontend(j) => if j < |joins| && joins[j] == WaitOver then joins[j := Finished] else joins
    case _ => joins
  }

  /** How far every `join` has come. */
  function Joins(steps: seq<Step>): seq<Join> {
    if steps == [] then []
    else
      var before := steps[..|steps| - 1];
      JoinsAfter(Tracked(before), Joins(before), steps[|steps| - 1])
  }

  /** What a step does that others can see. */
  function Effect(armed: seq<bool>, tracked: seq<bool>, joins: seq<Join>, step: Step): Option<Event> {
    match step
    case Register => Some(Registered(|armed|))
    case Complete(id) => if id < |armed| && armed[id] then Some(Signalled(id)) else None
    case DropToken(id) => if id < |armed| && armed[id] then Some(Signalled(id)) else None
    case WakeJoin(j) => if j < |joins| && joins[j] == Waiting && true !in tracked then Some(WaitEnded) else None
    case CancelFrontend(j) => if j < |joins| && joins[j] == WaitOver then Some(FrontendCancelled) else None
    case _ => None
  }

  function EffectAt(steps: seq<Step>, n: nat): Option<Event>
    requires n < |steps|
  {
    Effect(Unsignalled(steps[..n]), Tracked(steps[..n]), Joins(steps[..n]), steps[n])
  }

  ghost predicate Explains(steps: seq<Step>, trace: seq<Option<Event>>) {
    |trace| <= |steps| && forall n :: 0 <= n < |trace| ==> trace[n] == EffectAt(steps, n)
  }

  // ----- what every run shows ------------------------------------------------------------

  /** A wait ends only when every token registered until then has been completed or
      dropped, and has signalled. */
  ghost predicate WaitsForAll(steps: seq<Step>, trace: seq<Option<Event>>)
    requires |trace| <= |steps|
  {
    forall n :: 0 <= n < |trace| && trace[n] == Some(WaitEnded) ==>
      true !in Unsignalled(steps[..n]) && AllSignalled(trace[..n])
  }

  ghost predicate AllSignalled(trace: seq<Option<Event>>) {
    forall id: nat :: Some(Registered(id)) in trace ==> Some(Signalled(id)) in trace
  }

  /** The frontend is cancelled only after a wait ended. */
  ghost predicate CancelsAfterWait(trace: seq<Option<Event>>) {
    forall n :: 0 <= n < |trace| && trace[n] == Some(FrontendCancelled) ==> Some(WaitEnded) in trace[..n]
  }

  /** No token signals twice. */
  ghost predicate SignalsOnce(trace: seq<Option<Event>>) {
    forall i, j :: 0 <= i < j < |trace| && trace[i].Some? && trace[i].value.Signalled? ==> trace[i] != trace[j]
  }

  /** Exactly the tokens completed or dropped have signalled, and exactly those registered
      are known. */
  ghost predicate SignalsAll(armed: seq<bool>, trace: seq<Option<Event>>) {
    && (forall id: nat :: Some(Registered(id)) in trace <==> id < |armed|)
    && (forall id: nat :: Some(Signalled(id)) in trace <==> id < |armed| && !armed[id])
  }

  /** A task ends only after the signal it waits for. */
  lemma {:induction false} EndedTasksSignalled(steps: seq<Step>)
    ensures |Tracked(steps)| == |Unsignalled(steps)|
    ensures forall id :: 0 <= id < |Tracked(steps)| && !Tracked(steps)[id] ==> !Unsignalled(steps)[id]
  {
    if steps != [] {
      EndedTasksSignalled(steps[..|steps| - 1]);
    }
  }

  lemma {:induction false} OverAfterWait(steps: seq<Step>, trace: seq<Option<Event>>, j: nat)
    requires Explains(steps, trace) && |trace| == |steps|
    requires j < |Joins(steps)| && Joins(steps)[j] == WaitOver
    ensures Some(WaitEnded) in trace
  {
    var n := |steps| - 1;
    var before := steps[..n];
    if j < |Joins(before)| && Joins(before)[j] == WaitOver {
      TraceOfPrefix(steps, trace, n);
      OverAfterWait(before, trace[..n], j);
    } else {
      assert trace[n] == Some(WaitEnded);
    }
  }

  lemma TraceOfPrefix(steps: seq<Step>, trace: seq<Option<Event>>, n: nat)
    requires Explains(steps, trace) && n <= |trace|
    ensures Explains(steps[..n], trace[..n])
  {
    forall k | 0 <= k < n ensures trace[k] == EffectAt(steps[..n], k) {
      assert steps[..n][..k] == steps[..k];
    }
  }

  ghost predicate SignalsRight(armed: seq<bool>, trace: seq<Option<Event>>) {
    SignalsAll(armed, trace) && SignalsOnce(trace)
  }

  lemma SignalsRightMore(armed: seq<bool>, step: Step, trace: seq<Option<Event>>, e: Option<Event>)
    requires SignalsRight(armed, trace)
    requires exists tracked, joins :: e == Effect(armed, tracked, joins, step)
    ensures SignalsRight(ArmedAfter(armed, step), trace + [e])
  {
    SignalsAllMore(armed, step, trace, e);
    SignalsOnceMore(armed, trace, e);
  }

  lemma {:induction false} SignalsMatch(steps: seq<Step>, trace: seq<Option<Event>>, n: nat)
    requires Explains(steps, trace) && n <= |trace|
    ensures SignalsRight(Unsignalled(steps[..n]), trace[..n])
    decreases n
  {
    if n > 0 {
      var before, armed := steps[..n - 1], Unsignalled(steps[..n - 1]);
      SignalsMatch(steps, trace, n - 1);
      assert trace[n - 1] == Effect(armed, Tracked(before), Joins(before), steps[n - 1]);
      SignalsRightMore(armed, steps[n - 1], trace[..n - 1], trace[n - 1]);
      assert steps[..n][..n - 1] == before && trace[..n] == trace[..n - 1] + [trace[n - 1]];
    }
  }

  lemma SignalsAllMore(armed: seq<bool>, step: Step, trace: seq<Option<Event>>, e: Option<Event>)
    requires SignalsAll(armed, trace)
    requires exists tracked, joins :: e == Effect(armed, tracked, joins, step)
    ensures SignalsAll(ArmedAfter(armed, step), trace + [e])
  {
    assert forall x :: x in trace + [e] <==> x in trace || x == e;
  }

  lemma SignalsOnceMore(armed: seq<bool>, trace: seq<Option<Event>>, e: Option<Event>)
    requires SignalsAll(armed, trace) && SignalsOnce(trace)
    requires e.Some? && e.value.Signalled? ==> e.value.id < |armed| && armed[e.value.id]
    ensures SignalsOnce(trace + [e])
  {
    if e.Some? && e.value.Signalled? {
      assert Some(Signalled(e.value.id)) !in trace;
    }
  }

  lemma WaitNeedsAll(steps: seq<Step>, n: nat)
    requires n < |steps| && EffectAt(steps, n) == Some(WaitEnded)
    ensures true !in Unsignalled(steps[..n])
  {
    EndedTasksSignalled(steps[..n]);
  }

  lemma CancelNeedsWait(steps: seq<Step>, trace: seq<Option<Event>>, n: nat)
    requires Explains(steps, trace) && n < |trace| && trace[n] == Some(FrontendCancelled)
    ensures Some(WaitEnded) in trace[..n]
  {
    assert trace[n] == EffectAt(steps, n);
    TraceOfPrefix(steps, trace, n);
    OverAfterWait(steps[..n], trace[..n], steps[n].j);
  }

  lemma RunIsSafe(steps: seq<Step>, trace: seq<Option<Event>>)
    requires Explains(steps, trace) && |trace| == |steps|
    ensures WaitsForAll(steps, trace) && CancelsAfterWait(trace)
    ensures SignalsRight(Unsignalled(steps), trace) && SignalsAsAsked(steps, trace)
  {
    SignalsAreAsked(steps, trace);
    assert SignalsRight(Unsignalled(steps), trace) by {
      SignalsMatch(steps, trace, |steps|);
      assert steps[..|steps|] == steps && trace[..|steps|] == trace;
    }
    forall n | 0 <= n < |trace| && trace[n] == Some(WaitEnded)
      ensures true !in Unsignalled(steps[..n]) && AllSignalled(trace[..n])
    {
      WaitNeedsAll(steps, n);
      SignalsMatch(steps, trace, n);
    }
    forall n | 0 <= n < |trace| && trace[n] == Some(FrontendCancelled) ensures Some(WaitEnded) in trace[..n] {
      CancelNeedsWait(steps, trace, n);
    }
  }

  function Registrations(steps: seq<Step>): nat {
    if steps == [] then 0
    else Registrations(steps[..|steps| - 1]) + (if steps[|steps| - 1] == Register then 1 else 0)
  }

  /** The n-th step completes or drops a token registered before. */
  predicate Asks(steps: seq<Step>, n: nat, id: nat)
    requires n < |steps|
  {
    (steps[n] == Complete(id) || steps[n] == DropToken(id)) && id < Registrations(steps[..n])
  }

  ghost predicate AskedIn(steps: seq<Step>, id: nat) {
    exists n :: 0 <= n < |steps| && Asks(steps, n, id)
  }

  lemma AskedMore(steps: seq<Step>, id: nat)
    requires steps != []
    ensures var n := |steps| - 1;
            AskedIn(steps, id) <==> AskedIn(steps[..n], id) || Asks(steps, n, id)
  {
    var n := |steps| - 1;
    var before := steps[..n];
    forall k | 0 <= k < n ensures Asks(steps, k, id) <==> Asks(before, k, id) {
      assert before[..k] == steps[..k];
    }
    if AskedIn(before, id) {
      var k :| 0 <= k < n && Asks(before, k, id);
      assert Asks(steps, k, id);
    }
  }

  lemma {:induction false} UnsignalledIs(steps: seq<Step>, id: nat)
    ensures |Unsignalled(steps)| == Registrations(steps)
    ensures id < Registrations(steps) ==> (Unsignalled(steps)[id] <==> !AskedIn(steps, id))
  {
    if steps != [] {
      var before := steps[..|steps| - 1];
      UnsignalledIs(before, id);
      AskedMore(steps, id);
      if id >= Registrations(before) { NotAskedYet(before, id); }
    }
  }

  lemma {:induction false} RegistrationsGrow(steps: seq<Step>, n: nat)
    requires n <= |steps|
    ensures Registrations(steps[..n]) <= Registrations(steps)
    decreases |steps| - n
  {
    if n == |steps| {
      assert steps[..n] == steps;
    } else {
      RegistrationsGrow(steps, n + 1);
      assert steps[..n + 1][..n] == steps[..n];
    }
  }

  lemma NotAskedYet(steps: seq<Step>, id: nat)
    requires id >= Registrations(steps)
    ensures !AskedIn(steps, id)
  {
    forall n | 0 <= n < |steps| ensures !Asks(steps, n, id) {
      RegistrationsGrow(steps, n);
    }
  }

  /** Tokens are numbered as they are registered, and each signals at the first step that
      completes or drops it, and at no other. */
  ghost predicate SignalsAsAsked(steps: seq<Step>, trace: seq<Option<Event>>)
    requires |trace| <= |steps|
  {
    && (forall n, id: nat :: 0 <= n < |trace| ==>
          (trace[n] == Some(Registered(id)) <==> steps[n] == Register && id == Registrations(steps[..n])))
    && (forall n, id: nat :: 0 <= n < |trace| ==>
          (trace[n] == Some(Signalled(id)) <==> Asks(steps, n, id) && !AskedIn(steps[..n], id)))
  }

  lemma SignalsAreAsked(steps: seq<Step>, trace: seq<Option<Event>>)
    requires Explains(steps, trace)
    ensures SignalsAsAsked(steps, trace)
  {
    forall n, id: nat | 0 <= n < |trace|
      ensures trace[n] == Some(Registered(id)) <==> steps[n] == Register && id == Registrations(steps[..n])
      ensures trace[n] == Some(Signalled(id)) <==> Asks(steps, n, id) && !AskedIn(steps[..n], id)
    {
      assert trace[n] == EffectAt(steps, n);
      UnsignalledIs(steps[..n], id);
    }
  }

  // ----- the manager does what the steps say ----------------------------------------------

  ghost predicate Agrees(m: ShutdownManager, armed: seq<bool>, tracked: seq<bool>, joins: seq<Join>)
    reads m
  {
    && |m.tokens| == |armed| == |tracked| && m.joins == joins
    && forall id :: 0 <= id < |m.tokens| ==> m.tokens[id].armed == armed[id] && m.tokens[id].tracked == tracked[id]
  }

  method PerformSignal(m: ShutdownManager, step: Step, ghost armed: seq<bool>, ghost tracked: seq<bool>, ghost joins: seq<Join>)
    returns (e: Option<Event>)
    requires m.Valid() && Agrees(m, armed, tracked, joins) && (step.Complete? || step.DropToken?)
    modifies m`tokens, m`log
    ensures m.Valid() && Agrees(m, ArmedAfter(armed, step), tracked, joins)
    ensures e == Effect(armed, tracked, joins, step)
    ensures m.log == if e.Some? then old(m.log) + [e.value] else old(m.log)
  {
    e := None;
    if step.id < |m.tokens| && m.tokens[step.id].alive {
      if m.tokens[step.id].armed { e := Some(Signalled(step.id)); }
      if step.Complete? {
        m.CompleteToken(step.id);
      } else {
        m.Drop(step.id);
      }
    }
  }

  method PerformOnToken(m: ShutdownManager, step: Step, ghost armed: seq<bool>, ghost tracked: seq<bool>, ghost joins: seq<Join>)
    returns (e: Option<Event>)
    requires m.Valid() && Agrees(m, armed, tracked, joins)
    requires step.Register? || step.Complete? || step.DropToken?
    modifies m`tokens, m`log
    ensures m.Valid() && Agrees(m, ArmedAfter(armed, step), TrackedAfter(armed, tracked, step), joins)
    ensures e == Effect(armed, tracked, joins, step)
    ensures m.log == if e.Some? then old(m.log) + [e.value] else old(m.log)
  {
    if step.Register? {
      var id := m.RegisterToken();
      e := Some(Registered(id));
    } else {
      e := PerformSignal(m, step, armed, tracked, joins);
    }
  }

  method PerformOnJoin(m: ShutdownManager, step: Step, ghost armed: seq<bool>, ghost tracked: seq<bool>, ghost joins: seq<Join>)
    returns (e: Option<Event>)
    requires m.Valid() && Agrees(m, armed, tracked, joins)
    requires step.BeginJoin? || step.WakeJoin? || step.CancelFrontend?
    modifies m
    ensures m.Valid() && Agrees(m, armed, tracked, JoinsAfter(tracked, joins, step))
    ensures e == Effect(armed, tracked, joins, step)
    ensures m.log == if e.Some? then old(m.log) + [e.value] else old(m.log)
    ensures m.frontend <==> old(m.frontend) || e == Some(FrontendCancelled)
    ensures m.backend == old(m.backend)
  {
    e := None;
    if step.BeginJoin? {
      m.StartJoin();
    } else if step.j < |m.joins| {
      if step.WakeJoin? {
        var woken := m.TryEndWait(step.j);
        if woken { e := Some(WaitEnded); }
      } else {
        if m.joins[step.j] == WaitOver { e := Some(FrontendCancelled); }
        m.FinishJoin(step.j);
      }
    }
  }

  method Perform(m: ShutdownManager, step: Step, ghost armed: seq<bool>, ghost tracked: seq<bool>, ghost joins: seq<Join>)
    returns (e: Option<Event>)
    requires m.Valid() && Agrees(m, armed, tracked, joins)
    modifies m
    ensures m.Valid()
    ensures Agrees(m, ArmedAfter(armed, step), TrackedAfter(armed, tracked, step), JoinsAfter(tracked, joins, step))
    ensures e == Effect(armed, tracked, joins, step)
    ensures m.log == if e.Some? then old(m.log) + [e.value] else old(m.log)
    ensures m.frontend <==> old(m.frontend) || e == Some(FrontendCancelled)
    ensures m.backend <==> old(m.backend) || step == TriggerShutdown
  {
    e := None;
    if step.TaskEnds? {
      if step.id < |m.tokens| { m.EndTask(step.id); }
    } else if step.TriggerShutdown? {
      m.Shutdown();
    } else if step.Register? || step.Complete? || step.DropToken? {
      e := PerformOnToken(m, step, armed, tracked, joins);
    } else {
      e := PerformOnJoin(m, step, armed, tracked, joins);
    }
  }

  lemma ExplainsMore(steps: seq<Step>, trace: seq<Option<Event>>, e: Option<Event>)
    requires Explains(steps, trace) && |trace| < |steps| && e == EffectAt(steps, |trace|)
    ensures Explains(steps, trace + [e])
  {}

  /** What holds after the steps that the trace answers. */
  ghost predicate Sofar(m: ShutdownManager, steps: seq<Step>, trace: seq<Option<Event>>)
    reads m
  {
    && m.Valid() && Explains(steps, trace)
    && var done := steps[..|trace|];
    && Agrees(m, Unsignalled(done), Tracked(done), Joins(done))
    && (m.frontend <==> Some(FrontendCancelled) in trace)
    && (m.backend <==> TriggerShutdown in done)
  }

  lemma OneMoreStep(steps: seq<Step>, n: nat)
    requires n < |steps|
    ensures var before, after, step := steps[..n], steps[..n + 1], steps[n];
            && Unsignalled(after) == ArmedAfter(Unsignalled(before), step)
            && Tracked(after) == TrackedAfter(Unsignalled(before), Tracked(before), step)
            && Joins(after) == JoinsAfter(Tracked(before), Joins(before), step)
            && (TriggerShutdown in after <==> TriggerShutdown in before || step == TriggerShutdown)
  {
    assert steps[..n + 1][..n] == steps[..n];
    assert steps[..n + 1] == steps[..n] + [steps[n]];
  }

  method PerformNext(m: ShutdownManager, steps: seq<Step>, n: nat, ghost trace: seq<Option<Event>>) returns (e: Option<Event>)
    requires |trace| == n < |steps| && Sofar(m, steps, trace)
    modifies m
    ensures Sofar(m, steps, trace + [e])
  {
    OneMoreStep(steps, n);
    e := Perform(m, steps[n], Unsignalled(steps[..n]), Tracked(steps[..n]), Joins(steps[..n]));
    ExplainsMore(steps, trace, e);
  }

  /** Every interleaving: each step does what the steps before it say.  So a token signals
      at the first step that completes or drops it, and at no other, a wait ends only when
      every token registered until then has signalled, the frontend is cancelled only after
      that, and the backend exactly if a shutdown was triggered. */
  method RunSteps(steps: seq<Step>) returns (trace: seq<Option<Event>>, frontend: bool, backend: bool)
    ensures |trace| == |steps| && Explains(steps, trace)
    ensures WaitsForAll(steps, trace) && CancelsAfterWait(trace)
    ensures SignalsRight(Unsignalled(steps), trace)
    ensures SignalsAsAsked(steps, trace)
    ensures frontend <==> Some(FrontendCancelled) in trace
    ensures backend <==> TriggerShutdown in steps
  {
    var m := new ShutdownManager();
    trace := [];
    for n := 0 to |steps|
      invariant fresh(m) && |trace| == n && Sofar(m, steps, trace)
    {
      var e := PerformNext(m, steps, n, trace);
      trace := trace + [e];
    }
    frontend, backend := m.frontend, m.backend;
    assert steps[..|steps|] == steps;
    RunIsSafe(steps, trace);
  }
}
