/**
 The loop behind a WAL trigger that runs its plugin synchronously: each write of its
 database, in the order of the files and of the writes in them, is given to the plugin,
 with failures logged, retried or answered by disabling the trigger.

 How the plugin fares is a finite sequence of results, one per attempt; a run for which
 the results end in the middle is one that is still going on.  What the catalog knows at
 the time of a file is part of the delivery.
 */
module WalTrigger {
  import opened Basics

  datatype WalOp = Write(db: string) | Noop

  datatype Schema = MissingDb | MissingTable | Usable

  datatype WalEvent = Contents(ops: seq<WalOp>, schema: Schema) | Shutdown(sid: nat)

  datatype ErrorBehavior = Log | Retry | Disable

  datatype Result = Succeeded | Failed | Panicked

  /** A write to be given to the plugin: the number of the delivery and its index there. */
  datatype Target = Target(file: nat, op: nat)

  datatype Attempt = Attempt(target: Target, result: Result)

  // ----- the order attempts have to follow --------------------------------------------

  /** Done with: succeeded, or failed where failures are only logged. */
  predicate Settles(b: ErrorBehavior, r: Result) {
    r == Succeeded || (r == Failed && b == Log)
  }

  /** The attempts go through the targets from the first on: the next target is taken
      up when the one before is settled; a failed one is tried again under `Retry`, and
      nothing comes after a failure under `Disable` or after a panic. */
  ghost predicate Orderly(b: ErrorBehavior, targets: seq<Target>, attempts: seq<Attempt>) {
    attempts == [] ||
    (&& targets != [] && attempts[0].target == targets[0]
     && (if Settles(b, attempts[0].result) then Orderly(b, targets[1..], attempts[1..])
         else if attempts[0].result == Failed && b == Retry then Orderly(b, targets, attempts[1..])
         else |attempts| == 1))
  }

  /** The targets settled, in the order of the attempts. */
  function Settled(b: ErrorBehavior, attempts: seq<Attempt>): seq<Target> {
    if attempts == [] then []
    else (if Settles(b, attempts[0].result) then [attempts[0].target] else []) + Settled(b, attempts[1..])
  }

  /** No target is skipped or taken out of order. */
  lemma {:induction false} SettledIsPrefix(b: ErrorBehavior, targets: seq<Target>, attempts: seq<Attempt>)
    requires Orderly(b, targets, attempts)
    ensures Settled(b, attempts) <= targets
  {
    if attempts != [] {
      if Settles(b, attempts[0].result) {
        SettledIsPrefix(b, targets[1..], attempts[1..]);
        assert targets == [targets[0]] + targets[1..];
      } else if attempts[0].result == Failed && b == Retry {
        SettledIsPrefix(b, targets, attempts[1..]);
      } else {
        assert attempts[1..] == [];
      }
    }
  }

  /** A target is attempted again exactly when it failed under `Retry`: failures, then
      one success. */
  lemma {:induction false} AttemptedAgain(b: ErrorBehavior, targets: seq<Target>, attempts: seq<Attempt>, i: nat, j: nat)
    requires Orderly(b, targets, attempts) && i < j < |attempts|
    requires forall x, y :: 0 <= x < y < |targets| ==> targets[x] != targets[y]
    ensures attempts[i].target == attempts[j].target ==> b == Retry && attempts[i].result == Failed
    ensures attempts[i].target in targets
    ensures j == i + 1 && b == Retry && attempts[i].result == Failed ==> attempts[i].target == attempts[j].target
  {
    if Settles(b, attempts[0].result) {
      if i == 0 {
        AttemptsAreTargets(b, targets[1..], attempts[1..], j - 1);
      } else {
        AttemptedAgain(b, targets[1..], attempts[1..], i - 1, j - 1);
        assert attempts[i] == attempts[1..][i - 1];
      }
    } else {
      if i > 0 {
        AttemptedAgain(b, targets, attempts[1..], i - 1, j - 1);
        assert attempts[i] == attempts[1..][i - 1];
      } else {
        assert attempts[1..][0] == attempts[1];
      }
    }
  }

  lemma {:induction false} AttemptsAreTargets(b: ErrorBehavior, targets: seq<Target>, attempts: seq<Attempt>, j: nat)
    requires Orderly(b, targets, attempts) && j < |attempts|
    ensures attempts[j].target in targets
  {
    if j > 0 {
      if Settles(b, attempts[0].result) {
        AttemptsAreTargets(b, targets[1..], attempts[1..], j - 1);
      } else {
        AttemptsAreTargets(b, targets, attempts[1..], j - 1);
      }
      assert attempts[j] == attempts[1..][j - 1];
    }
  }

  lemma Associative(a: seq<Target>, b: seq<Target>, c: seq<Target>)
    ensures a + b + c == a + (b + c)
  {}

  lemma {:induction false} SettledConcat(b: ErrorBehavior, first: seq<Attempt>, second: seq<Attempt>)
    ensures Settled(b, first + second) == Settled(b, first) + Settled(b, second)
  {
    if first == [] {
      assert first + second == second;
    } else {
      var all, rest := first + second, first[1..];
      SettledConcat(b, rest, second);
      assert all[0] == first[0] && all[1..] == rest + second;
      var x := if Settles(b, first[0].result) then [first[0].target] else [];
      Associative(x, Settled(b, rest), Settled(b, second));
    }
  }

  /** The attempts on a first part, all of it settled, and those on a second. */
  lemma {:induction false} OrderlyConcat(b: ErrorBehavior, t1: seq<Target>, a1: seq<Attempt>, t2: seq<Target>, a2: seq<Attempt>)
    requires Orderly(b, t1, a1) && Settled(b, a1) == t1
    requires Orderly(b, t2, a2)
    ensures Orderly(b, t1 + t2, a1 + a2)
  {
    if a1 == [] {
      assert t1 + t2 == t2 && a1 + a2 == a2;
    } else {
      var rest, all := a1[1..], a1 + a2;
      assert all[0] == a1[0] && all[1..] == rest + a2;
      if Settles(b, a1[0].result) {
        assert t1[1..] == Settled(b, rest);
        OrderlyConcat(b, t1[1..], rest, t2, a2);
        assert (t1 + t2)[0] == t1[0] && (t1 + t2)[1..] == t1[1..] + t2;
      } else if a1[0].result == Failed && b == Retry {
        assert t1 == Settled(b, rest);
        OrderlyConcat(b, t1, rest, t2, a2);
      } else {
        assert false;
      }
    }
  }

  lemma {:induction false} OrderlyWithMore(b: ErrorBehavior, targets: seq<Target>, more: seq<Target>, attempts: seq<Attempt>)
    requires Orderly(b, targets, attempts)
    ensures Orderly(b, targets + more, attempts)
  {
    if attempts != [] {
      if Settles(b, attempts[0].result) {
        OrderlyWithMore(b, targets[1..], more, attempts[1..]);
        assert (targets + more)[1..] == targets[1..] + more;
      } else if attempts[0].result == Failed && b == Retry {
        OrderlyWithMore(b, targets, more, attempts[1..]);
      }
    }
  }

  lemma OrderlyOnPrefix(b: ErrorBehavior, some: seq<Target>, all: seq<Target>, attempts: seq<Attempt>)
    requires some <= all && Orderly(b, some, attempts)
    ensures Orderly(b, all, attempts)
  {
    OrderlyWithMore(b, some, all[|some|..], attempts);
    assert some + all[|some|..] == all;
  }

  /** The attempts used up the results from the first on. */
  ghost predicate Uses(attempts: seq<Attempt>, results: seq<Result>) {
    |attempts| <= |results| && forall i :: 0 <= i < |attempts| ==> attempts[i].result == results[i]
  }

  lemma UsesMore(attempts: seq<Attempt>, more: seq<Attempt>, results: seq<Result>)
    requires Uses(attempts, results) && Uses(more, results[|attempts|..])
    ensures Uses(attempts + more, results)
  {
    forall i | 0 <= i < |attempts + more| ensures (attempts + more)[i].result == results[i] {
      if i >= |attempts| {
        assert results[|attempts|..][i - |attempts|] == results[i];
      }
    }
  }

  function LastResult(attempts: seq<Attempt>): Option<Result> {
    if attempts == [] then None else Some(attempts[|attempts| - 1].result)
  }

  lemma LastOfBoth(attempts: seq<Attempt>, more: seq<Attempt>)
    ensures LastResult(attempts + more) == if more == [] then LastResult(attempts) else LastResult(more)
  {
    if more == [] {
      assert attempts + more == attempts;
    }
  }

  // ----- one delivery -------------------------------------------------------------------

  function Targets(db: string, file: nat, ops: seq<WalOp>): seq<Target> {
    if ops == [] then [] else
    var n := |ops| - 1;
    Targets(db, file, ops[..n]) + (if ops[n] == Write(db) then [Target(file, n)] else [])
  }

  datatype NextState = SuccessfulRun | Disabled | Errored | StillRunning

  /** How the result of an attempt directs the retry loop: go on to the next write, try
      again, or give up. */
  datatype ResultAction = NextWrite | TryAgain | GiveUp(state: NextState)

  function HandleTriggerResult(b: ErrorBehavior, r: Result): ResultAction {
    match r
    case Succeeded => NextWrite
    case Panicked => GiveUp(Errored)
    case Failed => match b { case Log => NextWrite case Retry => TryAgain case Disable => GiveUp(Disabled) }
  }

  lemma OrderlyNext(b: ErrorBehavior, t1: seq<Target>, a1: seq<Attempt>, t: Target, tries: seq<Attempt>)
    requires Orderly(b, t1, a1) && Settled(b, a1) == t1
    requires Orderly(b, [t], tries)
    ensures Orderly(b, t1 + [t], a1 + tries) && Settled(b, a1 + tries) == t1 + Settled(b, tries)
  {
    OrderlyConcat(b, t1, a1, [t], tries);
    SettledConcat(b, a1, tries);
  }

  lemma {:induction false} OneMoreTry(b: ErrorBehavior, t: Target, tries: seq<Attempt>, r: Result)
    requires OnlyFailures(b, t, tries)
    ensures Orderly(b, [t], tries + [Attempt(t, r)])
    ensures Settled(b, tries + [Attempt(t, r)]) == if Settles(b, r) then [t] else []
  {
    var all := tries + [Attempt(t, r)];
    if tries == [] {
      assert all[1..] == [];
      assert Orderly(b, [t], []) && Orderly(b, [t][1..], []);
    } else {
      OneMoreTry(b, t, tries[1..], r);
      assert all[1..] == tries[1..] + [Attempt(t, r)];
    }
  }

  /** So far nothing but failures that are tried again. */
  ghost predicate OnlyFailures(b: ErrorBehavior, t: Target, tries: seq<Attempt>) {
    (b == Retry || tries == []) && forall i :: 0 <= i < |tries| ==> tries[i] == Attempt(t, Failed)
  }

  lemma FailuresAreOrderly(b: ErrorBehavior, t: Target, tries: seq<Attempt>)
    requires OnlyFailures(b, t, tries)
    ensures Orderly(b, [t], tries) && Settled(b, tries) == []
  {
    if tries != [] {
      var n := |tries| - 1;
      OneMoreTry(b, t, tries[..n], Failed);
      assert tries == tries[..n] + [Attempt(t, Failed)];
    }
  }

  /** The retry loop for one write. */
  method TryWrite(b: ErrorBehavior, t: Target, results: seq<Result>) returns (state: NextState, tries: seq<Attempt>)
    ensures Uses(tries, results)
    ensures Orderly(b, [t], tries)
    ensures Settled(b, tries) == if state == SuccessfulRun then [t] else []
    ensures state == SuccessfulRun ==> LastResult(tries).Some? && Settles(b, LastResult(tries).value)
    ensures state == Disabled <==> b == Disable && LastResult(tries) == Some(Failed)
    ensures state == Errored <==> LastResult(tries) == Some(Panicked)
    ensures state == StillRunning ==> |tries| == |results|
  {
    tries := [];
    while |tries| < |results|
      invariant Uses(tries, results) && OnlyFailures(b, t, tries)
      decreases |results| - |tries|
    {
      var r := results[|tries|];
      var action := HandleTriggerResult(b, r);
      if action != TryAgain {
        OneMoreTry(b, t, tries, r);
        state := if action == NextWrite then SuccessfulRun else action.state;
        return state, tries + [Attempt(t, r)];
      }
      tries := tries + [Attempt(t, r)];
    }
    FailuresAreOrderly(b, t, tries);
    state := StillRunning;
  }

  method ProcessWalContents(db: string, b: ErrorBehavior, file: nat, ops: seq<WalOp>, schema: Schema, results: seq<Result>)
    returns (state: NextState, attempts: seq<Attempt>)
    ensures Uses(attempts, results)
    ensures Orderly(b, Targets(db, file, ops), attempts)
    // all is given to the plugin, or it stops for a reason
    ensures state == SuccessfulRun ==> Settled(b, attempts) == Targets(db, file, ops)
    ensures state == Disabled <==> b == Disable && LastResult(attempts) == Some(Failed)
    ensures state == Errored <==>
            || schema == MissingDb
            || (schema == MissingTable && Targets(db, file, ops) != [])
            || LastResult(attempts) == Some(Panicked)
    ensures schema != Usable ==> attempts == []
    ensures state == StillRunning ==> |attempts| == |results| && Settled(b, attempts) != Targets(db, file, ops)
  {
    attempts := [];
    if schema == MissingDb { return Errored, []; }
    for i := 0 to |ops|
      invariant Uses(attempts, results) && Through(db, b, file, ops, i, attempts)
      invariant schema == MissingTable ==> attempts == []
      invariant LastResult(attempts).Some? ==> Settles(b, LastResult(attempts).value)
    {
      if ops[i] == Write(db) {
        if schema == MissingTable {
          EndsEarly(db, b, file, ops, i, attempts);
          TargetsGrow(db, file, ops, i + 1);
          assert ops[..i + 1][..i] == ops[..i];
          return Errored, attempts;
        }
        var s, tries := TryWrite(b, Target(file, i), results[|attempts|..]);
        UsesMore(attempts, tries, results);
        LastOfBoth(attempts, tries);
        ThroughWrite(db, b, file, ops, i, attempts, tries);
        attempts := attempts + tries;
        if s != SuccessfulRun { return s, attempts; }
      } else {
        ThroughOther(db, b, file, ops, i, attempts);
      }
    }
    assert ops[..|ops|] == ops;
    state := SuccessfulRun;
  }

  /** Every write among the first `n` operations is settled, in order. */
  ghost predicate Through(db: string, b: ErrorBehavior, file: nat, ops: seq<WalOp>, n: nat, attempts: seq<Attempt>)
    requires n <= |ops|
  {
    Orderly(b, Targets(db, file, ops[..n]), attempts) && Settled(b, attempts) == Targets(db, file, ops[..n])
  }

  lemma EndsEarly(db: string, b: ErrorBehavior, file: nat, ops: seq<WalOp>, n: nat, attempts: seq<Attempt>)
    requires n <= |ops| && Orderly(b, Targets(db, file, ops[..n]), attempts)
    ensures Orderly(b, Targets(db, file, ops), attempts)
  {
    TargetsGrow(db, file, ops, n);
    OrderlyOnPrefix(b, Targets(db, file, ops[..n]), Targets(db, file, ops), attempts);
  }

  lemma ThroughWrite(db: string, b: ErrorBehavior, file: nat, ops: seq<WalOp>, n: nat, attempts: seq<Attempt>, tries: seq<Attempt>)
    requires n < |ops| && ops[n] == Write(db) && Through(db, b, file, ops, n, attempts)
    requires Orderly(b, [Target(file, n)], tries)
    ensures Orderly(b, Targets(db, file, ops), attempts + tries)
    ensures Settled(b, tries) == [Target(file, n)] ==> Through(db, b, file, ops, n + 1, attempts + tries)
    ensures Settled(b, tries) == [] ==> Settled(b, attempts + tries) != Targets(db, file, ops)
  {
    assert ops[..n + 1][..n] == ops[..n];
    OrderlyNext(b, Targets(db, file, ops[..n]), attempts, Target(file, n), tries);
    EndsEarly(db, b, file, ops, n + 1, attempts + tries);
    TargetsGrow(db, file, ops, n + 1);
  }

  lemma ThroughOther(db: string, b: ErrorBehavior, file: nat, ops: seq<WalOp>, n: nat, attempts: seq<Attempt>)
    requires n < |ops| && ops[n] != Write(db) && Through(db, b, file, ops, n, attempts)
    ensures Through(db, b, file, ops, n + 1, attempts)
  {
    assert ops[..n + 1][..n] == ops[..n];
    assert Targets(db, file, ops[..n + 1]) == Targets(db, file, ops[..n]) + [] == Targets(db, file, ops[..n]);
  }

  lemma {:induction false} TargetsGrow(db: string, file: nat, ops: seq<WalOp>, i: nat)
    requires i <= |ops|
    ensures Targets(db, file, ops[..i]) <= Targets(db, file, ops)
    decreases |ops|
  {
    if i < |ops| {
      TargetsGrow(db, file, ops[..|ops| - 1], i);
      assert ops[..|ops| - 1][..i] == ops[..i];
    } else {
      assert ops[..i] == ops;
    }
  }

  // ----- the loop -------------------------------------------------------------------------

  datatype ExitReason = Stopped | ChannelClosed | Broken | Going | Disabling

  /** The writes delivered by the events from `lo` up to `hi`, in order. */
  function Delivered(db: string, events: seq<WalEvent>, lo: nat, hi: nat): seq<Target>
    requires lo <= hi <= |events|
  {
    if lo == hi then []
    else Delivered(db, events, lo, hi - 1) +
         (if events[hi - 1].Contents? then Targets(db, hi - 1, events[hi - 1].ops) else [])
  }

  /** Skips deliveries until a shutdown comes, which is acknowledged. */
  method DrainUntilShutdown(events: seq<WalEvent>, from: nat) returns (next: nat, ack: Option<nat>)
    requires from <= |events|
    ensures from <= next <= |events|
    ensures forall i :: from <= i < next - 1 ==> events[i].Contents?
    ensures ack == if from < next && events[next - 1].Shutdown? then Some(events[next - 1].sid) else None
    ensures ack.None? ==> next == |events|
  {
    next, ack := from, None;
    while next < |events| && ack.None?
      invariant from <= next <= |events|
      invariant forall i :: from <= i < next - 1 ==> events[i].Contents?
      invariant ack == if from < next && events[next - 1].Shutdown? then Some(events[next - 1].sid) else None
      decreases |events| - next
    {
      if events[next].Shutdown? { ack := Some(events[next].sid); }
      next := next + 1;
    }
  }

  /** One stretch of a loop's life, up to its end or the moment it asks to be disabled:
      it takes up the events from `from` up to `taken` and makes the attempts, and last
      may acknowledge a shutdown. */
  datatype Stretch = Stretch(from: nat, taken: nat, attempts: seq<Attempt>, ack: Option<nat>, exit: ExitReason)

  ghost predicate Faithful(db: string, b: ErrorBehavior, events: seq<WalEvent>, s: Stretch) {
    && s.from <= s.taken <= |events|
    // the attempts follow exactly the order of the database's writes
    && Orderly(b, Delivered(db, events, s.from, s.taken), s.attempts)
    // and leave out none, if the loop ends by a shutdown or for want of events
    && (s.exit == Stopped || s.exit == ChannelClosed ==>
          Settled(b, s.attempts) == Delivered(db, events, s.from, s.taken))
    && (s.exit == ChannelClosed ==> s.taken == |events|)
    // the first shutdown taken up is acknowledged and ends the loop
    && (forall i :: s.from <= i < s.taken && events[i].Shutdown? ==> s.exit == Stopped && i == s.taken - 1)
    && (s.exit == Stopped ==> s.taken > s.from && events[s.taken - 1].Shutdown?)
    && s.ack == (if s.exit == Stopped then Some(events[s.taken - 1].sid) else None)
    // otherwise it gave up in its last delivery, all those before being settled
    && (s.exit == Disabling || s.exit == Broken || s.exit == Going ==>
          && s.from < s.taken
          && Delivered(db, events, s.from, s.taken - 1) <= Settled(b, s.attempts)
          && exists k :: GaveUpAfter(db, b, events, s, k))
  }

  /** The first `k` attempts settled all deliveries but the last, and the rest ended there. */
  ghost predicate GaveUpAfter(db: string, b: ErrorBehavior, events: seq<WalEvent>, s: Stretch, k: nat) {
    && s.from < s.taken <= |events| && k <= |s.attempts|
    && UpToDate(db, b, events, s.from, s.taken - 1, s.attempts[..k])
    && GivesUp(db, b, s.taken - 1, events[s.taken - 1], s.attempts[k..], s.exit)
  }

  /** How the attempts on one delivery end it early: by disabling exactly after a failure if
      so configured, by breaking off exactly for want of the database, of the table while
      there is a write, or after a panic, and by going on with a write not settled. */
  ghost predicate GivesUp(db: string, b: ErrorBehavior, file: nat, e: WalEvent, attempts: seq<Attempt>, exit: ExitReason) {
    && e.Contents?
    && Orderly(b, Targets(db, file, e.ops), attempts)
    && (e.schema != Usable ==> attempts == [])
    && (exit == Disabling <==> b == Disable && LastResult(attempts) == Some(Failed))
    && (exit == Broken <==>
          || e.schema == MissingDb
          || (e.schema == MissingTable && Targets(db, file, e.ops) != [])
          || LastResult(attempts) == Some(Panicked))
    && (exit == Going ==> Settled(b, attempts) != Targets(db, file, e.ops))
  }

  /** The attempts of one more delivery go on where those before ended. */
  lemma TakeOneMore(db: string, b: ErrorBehavior, events: seq<WalEvent>, from: nat, n: nat, attempts: seq<Attempt>, more: seq<Attempt>)
    requires from <= n < |events| && events[n].Contents?
    requires Orderly(b, Delivered(db, events, from, n), attempts) && Settled(b, attempts) == Delivered(db, events, from, n)
    requires Orderly(b, Targets(db, n, events[n].ops), more)
    ensures Orderly(b, Delivered(db, events, from, n + 1), attempts + more)
    ensures Settled(b, more) == Targets(db, n, events[n].ops) ==>
              Settled(b, attempts + more) == Delivered(db, events, from, n + 1)
  {
    OrderlyConcat(b, Delivered(db, events, from, n), attempts, Targets(db, n, events[n].ops), more);
    SettledConcat(b, attempts, more);
  }

  lemma TakeShutdown(db: string, events: seq<WalEvent>, from: nat, n: nat)
    requires from <= n < |events| && events[n].Shutdown?
    ensures Delivered(db, events, from, n + 1) == Delivered(db, events, from, n)
  {}

  /** All writes delivered so far are settled, in order. */
  ghost predicate UpToDate(db: string, b: ErrorBehavior, events: seq<WalEvent>, from: nat, taken: nat, attempts: seq<Attempt>)
    requires from <= taken <= |events|
  {
    && Orderly(b, Delivered(db, events, from, taken), attempts)
    && Settled(b, attempts) == Delivered(db, events, from, taken)
    && (forall i :: from <= i < taken ==> events[i].Contents?)
  }

  lemma StopIsFaithful(db: string, b: ErrorBehavior, events: seq<WalEvent>, from: nat, taken: nat, attempts: seq<Attempt>)
    requires from <= taken < |events| && UpToDate(db, b, events, from, taken, attempts) && events[taken].Shutdown?
    ensures Faithful(db, b, events, Stretch(from, taken + 1, attempts, Some(events[taken].sid), Stopped))
  {
    TakeShutdown(db, events, from, taken);
  }

  lemma GivingUpIsFaithful(db: string, b: ErrorBehavior, events: seq<WalEvent>, s: Stretch, k: nat)
    requires GaveUpAfter(db, b, events, s, k) && s.ack.None?
    requires s.exit == Broken || s.exit == Going || s.exit == Disabling
    requires Orderly(b, Delivered(db, events, s.from, s.taken), s.attempts)
    requires Delivered(db, events, s.from, s.taken - 1) <= Settled(b, s.attempts)
    ensures Faithful(db, b, events, s)
  {}

  lemma MoreUpToDate(db: string, b: ErrorBehavior, events: seq<WalEvent>, from: nat, taken: nat, attempts: seq<Attempt>, more: seq<Attempt>)
    requires from <= taken < |events| && UpToDate(db, b, events, from, taken, attempts) && events[taken].Contents?
    requires Orderly(b, Targets(db, taken, events[taken].ops), more) && Settled(b, more) == Targets(db, taken, events[taken].ops)
    ensures UpToDate(db, b, events, from, taken + 1, attempts + more)
  {
    TakeOneMore(db, b, events, from, taken, attempts, more);
  }

  lemma GivenUpIsFaithful(db: string, b: ErrorBehavior, events: seq<WalEvent>, from: nat, taken: nat, attempts: seq<Attempt>,
                          more: seq<Attempt>, exit: ExitReason)
    requires from <= taken < |events| && UpToDate(db, b, events, from, taken, attempts)
    requires exit == Broken || exit == Going || exit == Disabling
    requires GivesUp(db, b, taken, events[taken], more, exit)
    ensures Faithful(db, b, events, Stretch(from, taken + 1, attempts + more, None, exit))
  {
    var all := attempts + more;
    var s := Stretch(from, taken + 1, all, None, exit);
    assert Orderly(b, Delivered(db, events, from, taken + 1), all) by {
      TakeOneMore(db, b, events, from, taken, attempts, more);
    }
    assert Delivered(db, events, from, taken) <= Settled(b, all) by { SettledConcat(b, attempts, more); }
    assert all[..|attempts|] == attempts && all[|attempts|..] == more;
    assert GaveUpAfter(db, b, events, s, |attempts|);
    GivingUpIsFaithful(db, b, events, s, |attempts|);
  }

  lemma NothingTakenYet(db: string, b: ErrorBehavior, events: seq<WalEvent>, from: nat)
    requires from <= |events|
    ensures UpToDate(db, b, events, from, from, [])
  {}

  lemma ClosedIsFaithful(db: string, b: ErrorBehavior, events: seq<WalEvent>, from: nat, attempts: seq<Attempt>)
    requires from <= |events| && UpToDate(db, b, events, from, |events|, attempts)
    ensures Faithful(db, b, events, Stretch(from, |events|, attempts, None, ChannelClosed))
  {}

  /** Takes up one event, making `more` attempts; `last` if it is the last of the stretch. */
  method TakeUp(db: string, b: ErrorBehavior, events: seq<WalEvent>, from: nat, taken: nat, attempts: seq<Attempt>, results: seq<Result>)
    returns (more: seq<Attempt>, last: Option<Stretch>)
    requires from <= taken < |events| && UpToDate(db, b, events, from, taken, attempts)
    ensures Uses(more, results)
    ensures last.None? ==> UpToDate(db, b, events, from, taken + 1, attempts + more)
    ensures last.Some? ==>
              last.value.from == from && last.value.attempts == attempts + more && Faithful(db, b, events, last.value)
    ensures last.Some? && last.value.exit == Going ==> |more| == |results|
  {
    match events[taken] {
      case Shutdown(sid) =>
        StopIsFaithful(db, b, events, from, taken, attempts);
        assert attempts + [] == attempts;
        return [], Some(Stretch(from, taken + 1, attempts, Some(sid), Stopped));
      case Contents(ops, schema) =>
        var state;
        state, more := ProcessWalContents(db, b, taken, ops, schema, results);
        if state == SuccessfulRun {
          MoreUpToDate(db, b, events, from, taken, attempts, more);
          return more, None;
        }
        var exit := if state == Disabled then Disabling else if state == Errored then Broken else Going;
        GivenUpIsFaithful(db, b, events, from, taken, attempts, more, exit);
        last := Some(Stretch(from, taken + 1, attempts + more, None, exit));
    }
  }

  /** The loop over a mailbox that is closed after `events`, up to its end or the moment
      the trigger asks to be disabled. */
  method RunUntilDisabled(db: string, b: ErrorBehavior, events: seq<WalEvent>, from: nat, results: seq<Result>)
    returns (s: Stretch)
    requires from <= |events|
    ensures s.from == from && Faithful(db, b, events, s)
    ensures Uses(s.attempts, results) && (s.exit == Going ==> |s.attempts| == |results|)
  {
    var attempts: seq<Attempt>, taken := [], from;
    NothingTakenYet(db, b, events, from);
    while taken < |events|
      invariant from <= taken <= |events|
      invariant Uses(attempts, results)
      invariant UpToDate(db, b, events, from, taken, attempts)
      decreases |events| - taken
    {
      var more, last := TakeUp(db, b, events, from, taken, attempts, results[|attempts|..]);
      UsesMore(attempts, more, results);
      if last.Some? { return last.value; }
      attempts, taken := attempts + more, taken + 1;
    }
    ClosedIsFaithful(db, b, events, from, attempts);
    s := Stretch(from, taken, attempts, None, ChannelClosed);
  }

  lemma {:induction false} TargetsIn(db: string, file: nat, ops: seq<WalOp>)
    ensures forall i :: 0 <= i < |Targets(db, file, ops)| ==>
              Targets(db, file, ops)[i].file == file && Targets(db, file, ops)[i].op < |ops|
    ensures forall i, j :: 0 <= i < j < |Targets(db, file, ops)| ==> Targets(db, file, ops)[i].op < Targets(db, file, ops)[j].op
  {
    if ops != [] {
      TargetsIn(db, file, ops[..|ops| - 1]);
    }
  }

  lemma {:induction false} DeliveredDistinct(db: string, events: seq<WalEvent>, lo: nat, hi: nat)
    requires lo <= hi <= |events|
    ensures forall i :: 0 <= i < |Delivered(db, events, lo, hi)| ==> Delivered(db, events, lo, hi)[i].file < hi
    ensures forall i, j :: 0 <= i < j < |Delivered(db, events, lo, hi)| ==>
              Delivered(db, events, lo, hi)[i] != Delivered(db, events, lo, hi)[j]
    decreases hi
  {
    if lo < hi {
      DeliveredDistinct(db, events, lo, hi - 1);
      if events[hi - 1].Contents? {
        TargetsIn(db, hi - 1, events[hi - 1].ops);
      }
    }
  }

  /** In a stretch a write is attempted again only after failing under `Retry`, and then
      at once; so it has failures and then one success there, and a single attempt
      otherwise. */
  lemma AttemptsOfAWrite(db: string, b: ErrorBehavior, events: seq<WalEvent>, s: Stretch, i: nat, j: nat)
    requires Faithful(db, b, events, s) && i < j < |s.attempts|
    ensures s.attempts[i].target == s.attempts[j].target ==> b == Retry && s.attempts[i].result == Failed
    ensures j == i + 1 && b == Retry && s.attempts[i].result == Failed ==> s.attempts[i].target == s.attempts[j].target
  {
    DeliveredDistinct(db, events, s.from, s.taken);
    AttemptedAgain(b, Delivered(db, events, s.from, s.taken), s.attempts, i, j);
  }

  // ----- a stretch, read off the events ---------------------------------------------------

  /** The target is a write of the database in an event from `lo` up to `hi`. */
  predicate IsWrite(db: string, events: seq<WalEvent>, lo: nat, hi: int, t: Target) {
    && lo <= t.file < hi <= |events| && events[t.file].Contents?
    && t.op < |events[t.file].ops| && events[t.file].ops[t.op] == Write(db)
  }

  /** By the order of the files, and of the writes in a file. */
  predicate Precedes(a: Target, b: Target) {
    a.file < b.file || (a.file == b.file && a.op < b.op)
  }

  lemma {:induction false} TargetsAreWrites(db: string, file: nat, ops: seq<WalOp>, t: Target)
    ensures t in Targets(db, file, ops) <==> t.file == file && t.op < |ops| && ops[t.op] == Write(db)
  {
    if ops != [] {
      TargetsAreWrites(db, file, ops[..|ops| - 1], t);
    }
  }

  /** The writes of one event. */
  function WritesOf(db: string, events: seq<WalEvent>, n: nat): seq<Target>
    requires n < |events|
  {
    if events[n].Contents? then Targets(db, n, events[n].ops) else []
  }

  lemma WritesOfOne(db: string, events: seq<WalEvent>, n: nat, t: Target)
    requires n < |events|
    ensures t in WritesOf(db, events, n) <==> IsWrite(db, events, n, n + 1, t)
  {
    if events[n].Contents? { TargetsAreWrites(db, n, events[n].ops, t); }
  }

  lemma InEither(t: Target, a: seq<Target>, b: seq<Target>)
    ensures t in a + b <==> t in a || t in b
  {}

  lemma {:induction false} DeliveredAreWrites(db: string, events: seq<WalEvent>, lo: nat, hi: nat, t: Target)
    requires lo <= hi <= |events|
    ensures t in Delivered(db, events, lo, hi) <==> IsWrite(db, events, lo, hi, t)
    decreases hi
  {
    if lo < hi {
      DeliveredAreWrites(db, events, lo, hi - 1, t);
      WritesOfOne(db, events, hi - 1, t);
      InEither(t, Delivered(db, events, lo, hi - 1), WritesOf(db, events, hi - 1));
      assert Delivered(db, events, lo, hi) == Delivered(db, events, lo, hi - 1) + WritesOf(db, events, hi - 1);
    }
  }

  ghost predicate InOrder(targets: seq<Target>) {
    forall i, j :: 0 <= i < j < |targets| ==> Precedes(targets[i], targets[j])
  }

  ghost predicate FilesBelow(targets: seq<Target>, hi: nat) {
    forall i :: 0 <= i < |targets| ==> targets[i].file < hi
  }

  lemma InOrderBoth(a: seq<Target>, b: seq<Target>, file: nat)
    requires InOrder(a) && FilesBelow(a, file) && forall i :: 0 <= i < |b| ==> b[i].file == file
    requires forall i, j :: 0 <= i < j < |b| ==> b[i].op < b[j].op
    ensures InOrder(a + b) && FilesBelow(a + b, file + 1)
  {}

  lemma {:induction false} DeliveredInOrder(db: string, events: seq<WalEvent>, lo: nat, hi: nat)
    requires lo <= hi <= |events|
    ensures InOrder(Delivered(db, events, lo, hi)) && FilesBelow(Delivered(db, events, lo, hi), hi)
    decreases hi
  {
    if lo < hi {
      DeliveredInOrder(db, events, lo, hi - 1);
      var last := if events[hi - 1].Contents? then Targets(db, hi - 1, events[hi - 1].ops) else [];
      if events[hi - 1].Contents? { TargetsIn(db, hi - 1, events[hi - 1].ops); }
      InOrderBoth(Delivered(db, events, lo, hi - 1), last, hi - 1);
    }
  }

  lemma {:induction false} AttemptsInOrder(b: ErrorBehavior, targets: seq<Target>, attempts: seq<Attempt>, i: nat, j: nat)
    requires Orderly(b, targets, attempts) && InOrder(targets) && i < j < |attempts|
    ensures attempts[i].target == attempts[j].target || Precedes(attempts[i].target, attempts[j].target)
  {
    var settled := Settles(b, attempts[0].result);
    if i > 0 {
      AttemptsInOrder(b, if settled then targets[1..] else targets, attempts[1..], i - 1, j - 1);
      assert attempts[i] == attempts[1..][i - 1] && attempts[j] == attempts[1..][j - 1];
    } else {
      AttemptsAreTargets(b, if settled then targets[1..] else targets, attempts[1..], j - 1);
      assert attempts[j] == attempts[1..][j - 1];
    }
  }

  /** The target was done with: an attempt succeeded, or failed where failures are only
      logged. */
  ghost predicate DoneWith(b: ErrorBehavior, attempts: seq<Attempt>, t: Target) {
    exists i :: 0 <= i < |attempts| && attempts[i].target == t &&
                (attempts[i].result == Succeeded || (attempts[i].result == Failed && b == Log))
  }

  lemma {:induction false} SettledAreDone(b: ErrorBehavior, attempts: seq<Attempt>, t: Target)
    ensures t in Settled(b, attempts) <==> DoneWith(b, attempts, t)
  {
    if attempts != [] {
      var rest := attempts[1..];
      SettledAreDone(b, rest, t);
      if DoneWith(b, rest, t) {
        var i :| 0 <= i < |rest| && rest[i].target == t && (rest[i].result == Succeeded || (rest[i].result == Failed && b == Log));
        assert attempts[i + 1] == rest[i];
      }
      if DoneWith(b, attempts, t) {
        var i :| 0 <= i < |attempts| && attempts[i].target == t &&
                 (attempts[i].result == Succeeded || (attempts[i].result == Failed && b == Log));
        if i > 0 { assert rest[i - 1] == attempts[i]; }
      }
    }
  }

  /** What a stretch did, from the events: only writes of the database are attempted, in
      their order, none twice but after a failure under `Retry`; and all of them are done with
      but for those of the last event in a stretch that gives up. */
  ghost predicate Outright(db: string, b: ErrorBehavior, events: seq<WalEvent>, s: Stretch) {
    && s.from <= s.taken <= |events|
    && (forall i :: 0 <= i < |s.attempts| ==> IsWrite(db, events, s.from, s.taken, s.attempts[i].target))
    && (forall i, j :: 0 <= i < j < |s.attempts| ==>
          || Precedes(s.attempts[i].target, s.attempts[j].target)
          || (s.attempts[i].target == s.attempts[j].target && b == Retry && s.attempts[i].result == Failed))
    && var all := if s.exit == Stopped || s.exit == ChannelClosed then s.taken else s.taken - 1;
    && forall t :: IsWrite(db, events, s.from, all, t) ==> DoneWith(b, s.attempts, t)
  }

  lemma StretchAttempts(db: string, b: ErrorBehavior, events: seq<WalEvent>, s: Stretch, i: nat)
    requires Faithful(db, b, events, s) && i < |s.attempts|
    ensures IsWrite(db, events, s.from, s.taken, s.attempts[i].target)
  {
    AttemptsAreTargets(b, Delivered(db, events, s.from, s.taken), s.attempts, i);
    DeliveredAreWrites(db, events, s.from, s.taken, s.attempts[i].target);
  }

  lemma StretchOrder(db: string, b: ErrorBehavior, events: seq<WalEvent>, s: Stretch, i: nat, j: nat)
    requires Faithful(db, b, events, s) && i < j < |s.attempts|
    ensures || Precedes(s.attempts[i].target, s.attempts[j].target)
            || (s.attempts[i].target == s.attempts[j].target && b == Retry && s.attempts[i].result == Failed)
  {
    DeliveredInOrder(db, events, s.from, s.taken);
    AttemptsInOrder(b, Delivered(db, events, s.from, s.taken), s.attempts, i, j);
    AttemptsOfAWrite(db, b, events, s, i, j);
  }

  lemma StretchDone(db: string, b: ErrorBehavior, events: seq<WalEvent>, s: Stretch, t: Target)
    requires Faithful(db, b, events, s)
    ensures var all := if s.exit == Stopped || s.exit == ChannelClosed then s.taken else s.taken - 1;
            all >= s.from && (IsWrite(db, events, s.from, all, t) ==> DoneWith(b, s.attempts, t))
  {
    var all := if s.exit == Stopped || s.exit == ChannelClosed then s.taken else s.taken - 1;
    assert Delivered(db, events, s.from, all) <= Settled(b, s.attempts);
    DeliveredAreWrites(db, events, s.from, all, t);
    SettledAreDone(b, s.attempts, t);
  }

  lemma StretchIsOutright(db: string, b: ErrorBehavior, events: seq<WalEvent>, s: Stretch)
    requires Faithful(db, b, events, s)
    ensures Outright(db, b, events, s)
  {
    forall i | 0 <= i < |s.attempts| ensures IsWrite(db, events, s.from, s.taken, s.attempts[i].target) {
      StretchAttempts(db, b, events, s, i);
    }
    forall i, j | 0 <= i < j < |s.attempts|
      ensures || Precedes(s.attempts[i].target, s.attempts[j].target)
              || (s.attempts[i].target == s.attempts[j].target && b == Retry && s.attempts[i].result == Failed)
    {
      StretchOrder(db, b, events, s, i, j);
    }
    var all := if s.exit == Stopped || s.exit == ChannelClosed then s.taken else s.taken - 1;
    StretchDone(db, b, events, s, Target(0, 0));
    forall t | IsWrite(db, events, s.from, all, t) ensures DoneWith(b, s.attempts, t) {
      StretchDone(db, b, events, s, t);
    }
  }

  /** Between two stretches: the loop, asked to be disabled, skips deliveries up to a
      shutdown, which it acknowledges; the next stretch begins there. */
  ghost predicate Drained(events: seq<WalEvent>, prev: Stretch, ack: Option<nat>, next: Stretch) {
    && prev.exit == Disabling
    && prev.taken <= next.from <= |events|
    && (forall i :: prev.taken <= i < next.from - 1 ==> events[i].Contents?)
    && (if ack.Some? then prev.taken < next.from && events[next.from - 1] == Shutdown(ack.value)
        else next.from == |events| && (prev.taken < next.from ==> events[next.from - 1].Contents?))
  }

  /** Every stretch is faithful to the deliveries from where it began, and is followed by
      the one that begins where its mailbox was drained. */
  ghost predicate IsLife(db: string, b: ErrorBehavior, events: seq<WalEvent>, life: seq<Stretch>, drainAcks: seq<Option<nat>>) {
    && life != [] && |drainAcks| == |life| - 1
    && Faithful(db, b, events, life[|life| - 1])
    && (if |life| == 1 then life[0].from == 0
        else
          var n := |life| - 2;
          IsLife(db, b, events, life[..n + 1], drainAcks[..n]) && Drained(events, life[n], drainAcks[n], life[n + 1]))
  }

  /** All attempts of a life, in order. */
  function AllAttempts(life: seq<Stretch>): seq<Attempt> {
    if life == [] then [] else AllAttempts(life[..|life| - 1]) + life[|life| - 1].attempts
  }

  lemma AttemptsGoOn(life: seq<Stretch>, next: Stretch)
    ensures AllAttempts(life + [next]) == AllAttempts(life) + next.attempts
  {
    assert (life + [next])[..|life|] == life;
  }

  lemma LifeGoesOn(db: string, b: ErrorBehavior, events: seq<WalEvent>, life: seq<Stretch>, drainAcks: seq<Option<nat>>,
                   ack: Option<nat>, next: Stretch)
    requires IsLife(db, b, events, life, drainAcks)
    requires Drained(events, life[|life| - 1], ack, next) && Faithful(db, b, events, next)
    ensures IsLife(db, b, events, life + [next], drainAcks + [ack])
  {
    assert (life + [next])[..|life|] == life && (drainAcks + [ack])[..|drainAcks|] == drainAcks;
  }

  lemma FaithfulInRange(db: string, b: ErrorBehavior, events: seq<WalEvent>, s: Stretch)
    requires Faithful(db, b, events, s)
    ensures s.from <= s.taken <= |events| && (s.exit == Disabling ==> s.from < s.taken)
  {}

  lemma {:induction false} LifeIsOutright(db: string, b: ErrorBehavior, events: seq<WalEvent>, life: seq<Stretch>,
                                          drainAcks: seq<Option<nat>>, k: nat)
    requires IsLife(db, b, events, life, drainAcks) && k < |life|
    ensures Outright(db, b, events, life[k])
  {
    if k == |life| - 1 {
      StretchIsOutright(db, b, events, life[k]);
    } else {
      var n := |life| - 2;
      LifeIsOutright(db, b, events, life[..n + 1], drainAcks[..n], k);
    }
  }

  /**
   The whole life of the loop.  Only a stretch that ends in disabling is followed by
   another.  The attempts of all stretches, one after the other, had the results given, and
   the loop is still going on only if it has used them all.
   */
  method RunWalFlushPlugin(db: string, b: ErrorBehavior, events: seq<WalEvent>, results: seq<Result>)
    returns (life: seq<Stretch>, drainAcks: seq<Option<nat>>)
    ensures IsLife(db, b, events, life, drainAcks)
    ensures forall k :: 0 <= k < |life| ==> Outright(db, b, events, life[k])
    ensures life[|life| - 1].exit != Disabling
    ensures Uses(AllAttempts(life), results)
    ensures life[|life| - 1].exit == Going ==> |AllAttempts(life)| == |results|
  {
    var s := RunUntilDisabled(db, b, events, 0, results);
    FaithfulInRange(db, b, events, s);
    life, drainAcks := [s], [];
    FirstAttempts(s);
    var used := |s.attempts|;
    while s.exit == Disabling
      invariant IsLife(db, b, events, life, drainAcks) && life[|life| - 1] == s
      invariant used == |AllAttempts(life)| && Uses(AllAttempts(life), results) && s.taken <= |events|
      invariant s.exit == Going ==> used == |results|
      decreases |events| - s.taken, s.exit == Disabling
    {
      var next, ack := NextStretch(db, b, events, results, s, used, life, drainAcks);
      life, drainAcks := life + [next], drainAcks + [ack];
      s, used := next, used + |next.attempts|;
    }
    forall k | 0 <= k < |life| ensures Outright(db, b, events, life[k]) {
      LifeIsOutright(db, b, events, life, drainAcks, k);
    }
  }

  /** The stretch after one that ended in disabling. */
  method NextStretch(db: string, b: ErrorBehavior, events: seq<WalEvent>, results: seq<Result>, s: Stretch, used: nat,
                     ghost life: seq<Stretch>, ghost drainAcks: seq<Option<nat>>)
    returns (next: Stretch, ack: Option<nat>)
    requires IsLife(db, b, events, life, drainAcks) && life[|life| - 1] == s && s.exit == Disabling && s.taken <= |events|
    requires used == |AllAttempts(life)| && Uses(AllAttempts(life), results)
    ensures IsLife(db, b, events, life + [next], drainAcks + [ack])
    ensures s.taken <= next.taken <= |events| && (next.exit == Disabling ==> s.taken < next.taken)
    ensures |AllAttempts(life + [next])| == used + |next.attempts| && Uses(AllAttempts(life + [next]), results)
    ensures next.exit == Going ==> used + |next.attempts| == |results|
  {
    var from;
    from, ack := DrainUntilShutdown(events, s.taken);
    next := RunUntilDisabled(db, b, events, from, results[used..]);
    FaithfulInRange(db, b, events, next);
    LifeGoesOn(db, b, events, life, drainAcks, ack, next);
    UsesMore(AllAttempts(life), next.attempts, results);
    AttemptsGoOn(life, next);
  }

  lemma FirstAttempts(s: Stretch)
    ensures AllAttempts([s]) == s.attempts
  {
    AttemptsGoOn([], s);
    assert [] + [s] == [s] && AllAttempts([]) + s.attempts == s.attempts;
  }
}
