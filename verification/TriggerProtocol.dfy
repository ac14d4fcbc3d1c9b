/**
 Stopping triggers, as a protocol between independent tasks: the loops behind the
 mailboxes, the tasks that ask them to stop and wait for the acknowledgement, and the
 registry they all share.  A step of any task may come at any time; a step that is not
 possible changes nothing.

 The log records what an observer sees.  `RunIsSafe` states what it shows after any
 sequence of steps.
 */
module TriggerProtocol {
  import opened Basics
  import opened TriggerRegistry

  const MAILBOX_SIZE: nat := 60

  function Clear(r: Registry, s: Slot): Registry {
    match s
    case WalSlot(k) => RemoveTrigger(r, k, WalSpec)
    case ScheduleSlot(k) => RemoveTrigger(r, k, ScheduleSpec)
    case RequestSlot(n) => RemoveTrigger(r, ("", n), RequestSpec(n))
  }

  datatype Msg = Work | Stop(sid: nat)

  /** Where a loop stands: waiting for something to do, in a run that it waits for, told
      to disable itself and waiting for the shutdown, or gone. */
  datatype Phase = Waiting | Running | Draining | Exited

  datatype Task = Task(slot: Slot, queue: seq<Msg>, phase: Phase, inflight: nat)

  /** A task waiting for the answer to shutdown message number `sid`; `removes` tells a
      stop of one trigger from the shutdowns sent when a database is deleted. */
  datatype StopTask = StopTask(slot: Slot, chan: Chan, sentAt: nat, removes: bool, open: bool)

  /** Why a loop ends without having been told to: a run failed, there is nothing more to run
      at (no next time or no database), or its mailbox is closed and empty. */
  datatype Why = RunFailed | NothingToRun | MailboxClosed

  datatype Event =
    | RegisteredAt(chan: Chan, slot: Slot)
    | Cancelled(token: Token)
    | StopSent(sid: nat, chan: Chan)
    | Started(chan: Chan)
    | AutoDisabled(chan: Chan)
    | Acked(sid: nat, chan: Chan)
    | Removed(sid: nat, chan: Chan)
    | Ended(chan: Chan, why: Why)

  /** A shutdown message on its way to a mailbox, its sender holding the registry's lock. */
  datatype Sending = Sending(slot: Slot, chan: Chan, removes: bool)

  datatype World = World(reg: Registry, tasks: seq<Task>, stops: seq<StopTask>, acked: set<nat>, lost: set<nat>,
                         log: seq<Event>, sending: Option<Sending>)

  const START := World(EMPTY, [], [], {}, {}, [], None)

  datatype Outcome = Success | Disable | Error

  datatype Action =
    | Register(key: Key, spec: Spec)
    | SendWork(c: Chan)
    | BeginStop(slot: Slot, removes: bool)
    | SendStop
    | EndStop(sid: nat)
    | ClearDb(db: string, paths: seq<string>)
    | Receive(c: Chan, runAsync: bool)
    | Tick(c: Chan, runAsync: bool)
    | GiveUp(c: Chan)
    | Start(c: Chan)
    | Finish(c: Chan, outcome: Outcome)
    | Drain(c: Chan)
    | Close(c: Chan)

  function Sids(q: seq<Msg>): set<nat> {
    set m | m in q && m.Stop? :: m.sid
  }

  function SetTask(w: World, c: Chan, t: Task): World
    requires c < |w.tasks|
  {
    w.(tasks := w.tasks[c := t])
  }

  function Logged(w: World, e: Event): World { w.(log := w.log + [e]) }

  predicate HasSender(r: Registry, c: Chan) {
    c in r.wal.Values || c in r.schedule.Values || c in r.request.Values
  }

  /** A new mailbox and loop; a mailbox registered there before loses its sender. */
  function DoRegister(w: World, key: Key, spec: Spec): World {
    if w.sending.Some? then w else
    var c := |w.tasks|;
    Logged(w.(reg := TriggerRegistry.Register(w.reg, key, spec, c, c),
              tasks := w.tasks + [Task(SlotOf(key, spec), [], Waiting, 0)]),
           RegisteredAt(c, SlotOf(key, spec)))
  }

  function DoSendWork(w: World, c: Chan): World {
    if w.sending.None? && c < |w.tasks| && HasSender(w.reg, c) && w.tasks[c].phase != Exited
       && |w.tasks[c].queue| < MAILBOX_SIZE
    then SetTask(w, c, w.tasks[c].(queue := w.tasks[c].queue + [Work]))
    else w
  }

  /** The run of a schedule trigger is cancelled before the message is sent; the loops may
      go on in between. */
  function DoBeginStop(w: World, slot: Slot, removes: bool): World {
    if w.sending.Some? then w else
    match MailboxAt(w.reg, slot)
    case None => w
    case Some(c) =>
      var w1 := if slot.ScheduleSlot? && slot.key in w.reg.cancels then Logged(w, Cancelled(w.reg.cancels[slot.key])) else w;
      w1.(sending := Some(Sending(slot, c, removes)))
  }

  /** The message goes into the mailbox as soon as there is room, or to nowhere if the loop
      is gone. */
  function DoSendStop(w: World): World {
    match w.sending
    case None => w
    case Some(Sending(slot, c, removes)) =>
      if c >= |w.tasks| || w.tasks[c].phase == Exited then w.(sending := None)
      else if |w.tasks[c].queue| >= MAILBOX_SIZE then w
      else
        var sid := |w.stops|;
        var w1 := SetTask(w, c, w.tasks[c].(queue := w.tasks[c].queue + [Stop(sid)]));
        Logged(w1.(stops := w.stops + [StopTask(slot, c, |w.log|, removes, true)], sending := None), StopSent(sid, c))
  }

  /** The waiting task sees the answer.  If it was an acknowledgement, it removes what is
      registered at its slot now. */
  function DoEndStop(w: World, sid: nat): World {
    if sid < |w.stops| && w.stops[sid].open && (sid in w.acked || sid in w.lost) then
      var s := w.stops[sid];
      var w1 := w.(stops := w.stops[sid := s.(open := false)]);
      if sid in w.acked && s.removes && MailboxAt(w.reg, s.slot).Some?
      then if w.sending.Some? then w
           else Logged(w1.(reg := Clear(w.reg, s.slot)), Removed(sid, MailboxAt(w.reg, s.slot).value))
      else w1
    else w
  }

  /** The loop acknowledges and is gone; what is left in its mailbox is lost. */
  function AckAndExit(w: World, c: Chan, sid: nat): World
    requires c < |w.tasks| && w.tasks[c].queue != []
  {
    var t := w.tasks[c];
    Logged(SetTask(w, c, t.(queue := [], phase := Exited)).(acked := w.acked + {sid}, lost := w.lost + Sids(t.queue[1..])),
           Acked(sid, c))
  }

  /** The loop ends; what is in its mailbox is lost. */
  function Exit(w: World, c: Chan, why: Why): World
    requires c < |w.tasks|
  {
    SetTask(Logged(w, Ended(c, why)), c, w.tasks[c].(queue := [], phase := Exited)).(lost := w.lost + Sids(w.tasks[c].queue))
  }

  function Begin(w: World, c: Chan, t: Task, runAsync: bool): World
    requires c < |w.tasks|
  {
    SetTask(w, c, if runAsync then t.(inflight := t.inflight + 1) else t.(phase := Running))
  }

  function DoReceive(w: World, c: Chan, runAsync: bool): World {
    if c < |w.tasks| && w.tasks[c].phase == Waiting && w.tasks[c].queue != [] then
      var t := w.tasks[c];
      match t.queue[0]
      case Stop(sid) => AckAndExit(w, c, sid)
      case Work => Begin(w, c, t.(queue := t.queue[1..]), runAsync)
    else w
  }

  function DoTick(w: World, c: Chan, runAsync: bool): World {
    if c < |w.tasks| && w.tasks[c].slot.ScheduleSlot? && w.tasks[c].phase == Waiting
    then Begin(w, c, w.tasks[c], runAsync) else w
  }

  /** A schedule loop ends if there is no next time, or no database when it comes. */
  function DoGiveUp(w: World, c: Chan): World {
    if c < |w.tasks| && w.tasks[c].slot.ScheduleSlot? && w.tasks[c].phase == Waiting
    then Exit(w, c, NothingToRun) else w
  }

  predicate Busy(t: Task) {
    t.phase == Running || (t.phase == Waiting && t.inflight > 0)
  }

  /** An attempt to run the plugin begins, the first one or a retry. */
  function DoStart(w: World, c: Chan): World {
    if c < |w.tasks| && Busy(w.tasks[c]) then Logged(w, Started(c)) else w
  }

  /** Only a WAL loop that waits for its run ends with it; other errors are logged. */
  predicate Fatal(t: Task, outcome: Outcome) {
    outcome == Error && t.slot.WalSlot? && t.phase == Running
  }

  function DoFinish(w: World, c: Chan, outcome: Outcome): World {
    if c < |w.tasks| && Busy(w.tasks[c]) then
      var t := w.tasks[c];
      var t' := if t.phase == Running then t.(phase := Waiting) else t.(inflight := t.inflight - 1);
      if Fatal(t, outcome) then Exit(w, c, RunFailed)
      else if outcome == Disable && !t.slot.RequestSlot? then Logged(SetTask(w, c, t'.(phase := Draining)), AutoDisabled(c))
      else SetTask(w, c, t')
    else w
  }

  /** An auto-disabled loop skips work until the shutdown comes.  A schedule loop then
      exits; a WAL loop acknowledges and goes on waiting. */
  function DoDrain(w: World, c: Chan): World {
    if c < |w.tasks| && w.tasks[c].phase == Draining && w.tasks[c].queue != [] then
      var t := w.tasks[c];
      match t.queue[0]
      case Work => SetTask(w, c, t.(queue := t.queue[1..]))
      case Stop(sid) =>
        if t.slot.WalSlot?
        then Logged(SetTask(w, c, t.(queue := t.queue[1..], phase := Waiting)).(acked := w.acked + {sid}), Acked(sid, c))
        else AckAndExit(w, c, sid)
    else w
  }

  /** All senders are gone and the mailbox is empty. */
  function DoClose(w: World, c: Chan): World {
    if c < |w.tasks| && !HasSender(w.reg, c) && w.tasks[c].queue == [] then
      var t := w.tasks[c];
      if t.phase == Draining && t.slot.WalSlot? then SetTask(w, c, t.(phase := Waiting))
      else if t.phase == Waiting || t.phase == Draining then Exit(w, c, MailboxClosed)
      else w
    else w
  }

  function Step(w: World, a: Action): World {
    match a
    case Register(key, spec) => DoRegister(w, key, spec)
    case SendWork(c) => DoSendWork(w, c)
    case BeginStop(slot, removes) => DoBeginStop(w, slot, removes)
    case SendStop => DoSendStop(w)
    case EndStop(sid) => DoEndStop(w, sid)
    case ClearDb(db, paths) => if w.sending.Some? then w else w.(reg := RemoveDb(w.reg, db, paths))
    case Receive(c, runAsync) => DoReceive(w, c, runAsync)
    case Tick(c, runAsync) => DoTick(w, c, runAsync)
    case GiveUp(c) => DoGiveUp(w, c)
    case Start(c) => DoStart(w, c)
    case Finish(c, outcome) => DoFinish(w, c, outcome)
    case Drain(c) => DoDrain(w, c)
    case Close(c) => DoClose(w, c)
  }

  function Run(actions: seq<Action>): World {
    if actions == [] then START else Step(Run(actions[..|actions| - 1]), actions[|actions| - 1])
  }

  // ----- what the log of a run shows ---------------------------------------------------

  /** Each shutdown message is acknowledged at most once. */
  ghost predicate AckedOnce(log: seq<Event>) {
    forall i, j :: 0 <= i < j < |log| && log[i].Acked? && log[j].Acked? ==> log[i].sid != log[j].sid
  }

  /** It is the loop a shutdown message was sent to that acknowledges it. */
  ghost predicate AckedByAddressee(log: seq<Event>, stops: seq<StopTask>) {
    forall i :: 0 <= i < |log| && log[i].Acked? ==> log[i].sid < |stops| && log[i].chan == stops[log[i].sid].chan
  }

  /** A loop that acknowledged a shutdown starts no further run, unless it is a WAL loop
      that had disabled itself before. */
  ghost predicate QuietAfterAck(log: seq<Event>, tasks: seq<Task>) {
    forall i, j :: 0 <= i < j < |log| && log[i].Acked? && log[j].Started? && log[j].chan == log[i].chan ==>
      log[i].chan < |tasks| && tasks[log[i].chan].slot.WalSlot? && AutoDisabled(log[i].chan) in log[..i]
  }

  /** A shutdown message to a schedule trigger comes after the cancellation of the run of
      that same registration. */
  ghost predicate CancelledBeforeStop(log: seq<Event>, tasks: seq<Task>) {
    forall i :: 0 <= i < |log| && log[i].StopSent? && log[i].chan < |tasks| && tasks[log[i].chan].slot.ScheduleSlot? ==>
      Cancelled(log[i].chan) in log[..i]
  }

  ghost predicate ReRegistered(log: seq<Event>, slot: Slot, from: nat, to: nat)
    requires to <= |log|
  {
    exists i :: from < i < to && log[i].RegisteredAt? && log[i].slot == slot
  }

  /** A registration is removed by a stop only after its message was acknowledged by the
      loop it was sent to.  The registration removed is that loop's own exactly if none
      was made in its place since the message was sent. */
  ghost predicate RemovedAfterAck(log: seq<Event>, stops: seq<StopTask>) {
    forall j :: 0 <= j < |log| && log[j].Removed? ==> ProperRemoval(log, stops, j)
  }

  ghost predicate ProperRemoval(log: seq<Event>, stops: seq<StopTask>, j: nat)
    requires j < |log| && log[j].Removed?
  {
    var sid := log[j].sid;
    && sid < |stops|
    && var s := stops[sid];
    && s.sentAt < j && log[s.sentAt] == StopSent(sid, s.chan)
    && Acked(sid, s.chan) in log[..j]
    && (log[j].chan != s.chan <==> ReRegistered(log, s.slot, s.sentAt, j))
  }

  ghost predicate SafeLog(log: seq<Event>, tasks: seq<Task>, stops: seq<StopTask>) {
    && AckedOnce(log)
    && QuietAfterAck(log, tasks)
    && CancelledBeforeStop(log, tasks)
    && RemovedAfterAck(log, stops)
  }

  // ----- the invariant -----------------------------------------------------------------

  /** A mailbox is found only at the slot its loop was registered for; a schedule
      registration keeps its own token. */
  ghost predicate RegistryOk(reg: Registry, tasks: seq<Task>) {
    && (forall s :: MailboxAt(reg, s).Some? ==> MailboxAt(reg, s).value < |tasks| && tasks[MailboxAt(reg, s).value].slot == s)
    && OwnTokens(reg)
  }

  /** Messages in a mailbox belong to it and are neither answered nor lost. */
  ghost predicate QueueOk(t: Task, c: Chan, stops: seq<StopTask>, acked: set<nat>, lost: set<nat>) {
    var q := t.queue;
    && |q| <= MAILBOX_SIZE
    && (t.phase == Exited ==> q == [])
    && (forall i :: 0 <= i < |q| && q[i].Stop? ==>
          q[i].sid < |stops| && stops[q[i].sid].chan == c && q[i].sid !in acked && q[i].sid !in lost)
    && (forall i, j :: 0 <= i < j < |q| && q[i].Stop? && q[j].Stop? ==> q[i].sid < q[j].sid)
  }

  ghost predicate QueuesOk(tasks: seq<Task>, stops: seq<StopTask>, acked: set<nat>, lost: set<nat>) {
    forall c :: 0 <= c < |tasks| ==> QueueOk(tasks[c], c, stops, acked, lost)
  }

  /** A loop that acknowledged is gone, or is a WAL loop that had disabled itself. */
  ghost predicate AcksOk(tasks: seq<Task>, stops: seq<StopTask>, acked: set<nat>, lost: set<nat>, log: seq<Event>) {
    && (forall i :: 0 <= i < |log| && log[i].Acked? ==> log[i].sid in acked && AckOk(tasks, log, i))
    && (forall sid :: sid in acked ==> sid < |stops| && Acked(sid, stops[sid].chan) in log)
    && (forall sid :: sid in lost ==> sid < |stops|)
    && (forall c :: 0 <= c < |tasks| && tasks[c].phase == Draining ==> AutoDisabled(c) in log)
  }

  ghost predicate AckOk(tasks: seq<Task>, log: seq<Event>, i: nat)
    requires i < |log| && log[i].Acked?
  {
    && log[i].chan < |tasks|
    && (tasks[log[i].chan].phase == Exited
        || (tasks[log[i].chan].slot.WalSlot? && AutoDisabled(log[i].chan) in log[..i]))
  }

  ghost predicate StopOk(s: StopTask, sid: nat, reg: Registry, log: seq<Event>) {
    && s.sentAt < |log| && log[s.sentAt] == StopSent(sid, s.chan)
    && (s.open && MailboxAt(reg, s.slot).Some? ==>
          (MailboxAt(reg, s.slot).value != s.chan <==> ReRegistered(log, s.slot, s.sentAt, |log|)))
  }

  ghost predicate StopsOk(stops: seq<StopTask>, reg: Registry, log: seq<Event>) {
    forall sid :: 0 <= sid < |stops| ==> StopOk(stops[sid], sid, reg, log)
  }

  ghost predicate ChansOk(stops: seq<StopTask>, tasks: seq<Task>, log: seq<Event>) {
    && (forall sid :: 0 <= sid < |stops| ==> stops[sid].chan < |tasks|)
    && (forall i :: 0 <= i < |log| && log[i].StopSent? ==> log[i].chan < |tasks|)
  }

  /** The message on its way goes to the mailbox registered at its slot, and the run of a
      schedule trigger has been cancelled. */
  ghost predicate SendingOk(sending: Option<Sending>, reg: Registry, log: seq<Event>) {
    sending.Some? ==>
      && MailboxAt(reg, sending.value.slot) == Some(sending.value.chan)
      && (sending.value.slot.ScheduleSlot? ==> Cancelled(sending.value.chan) in log)
  }

  ghost predicate Inv(w: World) {
    && SendingOk(w.sending, w.reg, w.log)
    && RegistryOk(w.reg, w.tasks)
    && QueuesOk(w.tasks, w.stops, w.acked, w.lost)
    && AcksOk(w.tasks, w.stops, w.acked, w.lost, w.log)
    && StopsOk(w.stops, w.reg, w.log)
    && ChansOk(w.stops, w.tasks, w.log)
    && SafeLog(w.log, w.tasks, w.stops)
  }

  // ----- one more entry in the log --------------------------------------------------------

  /** Loops keep their slots, and none is forgotten. */
  ghost predicate SameSlots(tasks: seq<Task>, tasks': seq<Task>) {
    |tasks| <= |tasks'| && forall c :: 0 <= c < |tasks| ==> tasks'[c].slot == tasks[c].slot
  }

  /** Stop tasks keep what they are about, and none is forgotten. */
  ghost predicate SameStops(stops: seq<StopTask>, stops': seq<StopTask>) {
    && |stops| <= |stops'|
    && forall sid :: 0 <= sid < |stops| ==> stops'[sid] == stops[sid].(open := stops'[sid].open)
  }

  ghost predicate Fits(e: Event, log: seq<Event>, tasks: seq<Task>, stops: seq<StopTask>) {
    match e
    case Acked(sid, _) => forall i :: 0 <= i < |log| && log[i].Acked? ==> log[i].sid != sid
    case Started(c) => forall i :: 0 <= i < |log| && log[i].Acked? && log[i].chan == c ==>
        c < |tasks| && tasks[c].slot.WalSlot? && AutoDisabled(c) in log[..i]
    case StopSent(_, c) =>
      c < |tasks| && (tasks[c].slot.ScheduleSlot? ==> Cancelled(c) in log)
    case Removed(_, _) => ProperRemoval(log + [e], stops, |log|)
    case _ => true
  }

  lemma ReRegisteredMore(log: seq<Event>, e: Event, slot: Slot, from: nat)
    ensures from < |log| ==>
              (ReRegistered(log + [e], slot, from, |log| + 1) <==>
               ReRegistered(log, slot, from, |log|) || (e.RegisteredAt? && e.slot == slot))
    ensures forall to :: 0 <= to <= |log| ==> (ReRegistered(log + [e], slot, from, to) <==> ReRegistered(log, slot, from, to))
  {
    var log' := log + [e];
    forall to | 0 <= to <= |log| ensures ReRegistered(log', slot, from, to) <==> ReRegistered(log, slot, from, to) {
      assert forall i :: 0 <= i < to ==> log'[i] == log[i];
    }
    assert log'[|log|] == e;
  }

  lemma RemovedMore(log: seq<Event>, e: Event, stops: seq<StopTask>, stops': seq<StopTask>)
    requires RemovedAfterAck(log, stops) && SameStops(stops, stops')
    requires e.Removed? ==> ProperRemoval(log + [e], stops', |log|)
    ensures RemovedAfterAck(log + [e], stops')
  {
    var log' := log + [e];
    forall j | 0 <= j < |log'| && log'[j].Removed? ensures ProperRemoval(log', stops', j) {
      if j < |log| {
        assert ProperRemoval(log, stops, j);
        var s := stops[log[j].sid];
        ReRegisteredMore(log, e, s.slot, s.sentAt);
        assert log'[..j] == log[..j];
      }
    }
  }

  lemma QuietMore(log: seq<Event>, e: Event, tasks: seq<Task>, tasks': seq<Task>, stops: seq<StopTask>)
    requires QuietAfterAck(log, tasks) && SameSlots(tasks, tasks') && Fits(e, log, tasks', stops)
    ensures QuietAfterAck(log + [e], tasks')
  {
    var log' := log + [e];
    assert forall i :: 0 <= i <= |log| ==> log'[..i] == log[..i];
  }

  lemma SafeLogMore(log: seq<Event>, e: Event, tasks: seq<Task>, tasks': seq<Task>,
                    stops: seq<StopTask>, stops': seq<StopTask>)
    requires SafeLog(log, tasks, stops) && SameSlots(tasks, tasks') && SameStops(stops, stops')
    requires ChansOk(stops, tasks, log)
    requires Fits(e, log, tasks', stops')
    ensures SafeLog(log + [e], tasks', stops')
  {
    RemovedMore(log, e, stops, stops');
    QuietMore(log, e, tasks, tasks', stops');
    CancelledMore(log, e, tasks, tasks', stops');
  }

  lemma CancelledMore(log: seq<Event>, e: Event, tasks: seq<Task>, tasks': seq<Task>, stops: seq<StopTask>)
    requires CancelledBeforeStop(log, tasks) && SameSlots(tasks, tasks') && Fits(e, log, tasks', stops)
    requires forall i :: 0 <= i < |log| && log[i].StopSent? ==> log[i].chan < |tasks|
    ensures CancelledBeforeStop(log + [e], tasks')
  {
    var log' := log + [e];
    forall i | 0 <= i < |log'| && log'[i].StopSent? && log'[i].chan < |tasks'| && tasks'[log'[i].chan].slot.ScheduleSlot?
      ensures Cancelled(log'[i].chan) in log'[..i]
    {
      assert log'[..i] == log[..i];
      assert log[..|log|] == log;
    }
  }

  lemma SafeLogSame(log: seq<Event>, tasks: seq<Task>, tasks': seq<Task>, stops: seq<StopTask>, stops': seq<StopTask>)
    requires SafeLog(log, tasks, stops) && SameSlots(tasks, tasks') && SameStops(stops, stops')
    requires ChansOk(stops, tasks, log)
    ensures SafeLog(log, tasks', stops')
  {
    forall j | 0 <= j < |log| && log[j].Removed? ensures ProperRemoval(log, stops', j) {
      assert ProperRemoval(log, stops, j);
    }
  }

  lemma StopsMore(stops: seq<StopTask>, reg: Registry, log: seq<Event>, e: Event)
    requires StopsOk(stops, reg, log) && !e.RegisteredAt?
    ensures StopsOk(stops, reg, log + [e])
  {
    forall sid | 0 <= sid < |stops| ensures StopOk(stops[sid], sid, reg, log + [e]) {
      assert StopOk(stops[sid], sid, reg, log);
      ReRegisteredMore(log, e, stops[sid].slot, stops[sid].sentAt);
    }
  }

  lemma RegistrySame(reg: Registry, tasks: seq<Task>, tasks': seq<Task>)
    requires RegistryOk(reg, tasks) && SameSlots(tasks, tasks')
    ensures RegistryOk(reg, tasks')
  {}

  // ----- every step keeps it -------------------------------------------------------------

  /** A step of one loop that acknowledges nothing: it may take messages from the front
      of its mailbox, and when it exits what is left is lost. */
  ghost predicate Quietly(t: Task, t': Task) {
    && t'.slot == t.slot
    && (t.phase == Exited ==> t'.phase == Exited)
    && (t'.phase == Draining ==> t.phase == Draining)
    && (t'.phase == Exited ==> t'.queue == [])
    && (t'.queue == t.queue || t'.queue == [] || (t.queue != [] && t.queue[0].Work? && t'.queue == t.queue[1..])
        || (|t.queue| < MAILBOX_SIZE && t'.queue == t.queue + [Work]))
  }

  lemma QuietStepKeeps(w: World, c: Chan, t: Task, lost: set<nat>)
    requires Inv(w) && c < |w.tasks| && Quietly(w.tasks[c], t)
    requires lost == if t.queue == [] then w.lost + Sids(w.tasks[c].queue) else w.lost
    ensures Inv(SetTask(w, c, t).(lost := lost))
  {
    var w' := SetTask(w, c, t).(lost := lost);
    RegistrySame(w.reg, w.tasks, w'.tasks);
    SafeLogSame(w.log, w.tasks, w'.tasks, w.stops, w.stops);
    forall d | 0 <= d < |w.tasks| ensures QueueOk(w'.tasks[d], d, w.stops, w.acked, lost) {
      assert QueueOk(w.tasks[d], d, w.stops, w.acked, w.lost);
      assert QueueOk(w.tasks[c], c, w.stops, w.acked, w.lost);
    }
    forall i | 0 <= i < |w.log| && w.log[i].Acked? ensures AckOk(w'.tasks, w.log, i) {
      assert AckOk(w.tasks, w.log, i);
    }
    assert QueueOk(w.tasks[c], c, w.stops, w.acked, w.lost);
  }

  lemma NoSids(q: seq<Msg>)
    requires q == [] || (q[0].Work? && q[1..] == [])
    ensures Sids(q) == {}
  {
    if q != [] { assert q == [Work]; }
  }

  /** The same when no shutdown message is lost. */
  lemma QuietMoveKeeps(w: World, c: Chan, t: Task)
    requires Inv(w) && c < |w.tasks| && Quietly(w.tasks[c], t)
    requires t.queue == [] ==> w.tasks[c].queue == [] || (w.tasks[c].queue[0].Work? && w.tasks[c].queue[1..] == [])
    ensures Inv(SetTask(w, c, t))
  {
    if t.queue == [] { NoSids(w.tasks[c].queue); }
    QuietStepKeeps(w, c, t, w.lost);
    assert SetTask(w, c, t) == SetTask(w, c, t).(lost := w.lost);
  }

  lemma SendWorkKeeps(w: World, c: Chan)
    requires Inv(w)
    ensures Inv(DoSendWork(w, c))
  {
    if DoSendWork(w, c) != w {
      QuietMoveKeeps(w, c, w.tasks[c].(queue := w.tasks[c].queue + [Work]));
    }
  }

  lemma BeginKeeps(w: World, c: Chan, queue: seq<Msg>, runAsync: bool)
    requires Inv(w) && c < |w.tasks| && w.tasks[c].phase == Waiting
    requires queue == w.tasks[c].queue || (w.tasks[c].queue != [] && w.tasks[c].queue[0].Work? && queue == w.tasks[c].queue[1..])
    ensures Inv(Begin(w, c, w.tasks[c].(queue := queue), runAsync))
  {
    var t := w.tasks[c].(queue := queue);
    var t' := if runAsync then t.(inflight := t.inflight + 1) else t.(phase := Running);
    assert Begin(w, c, t, runAsync) == SetTask(w, c, t');
    assert Quietly(w.tasks[c], t');
    QuietMoveKeeps(w, c, t');
  }

  lemma ExitKeeps(w: World, c: Chan, why: Why)
    requires Inv(w) && c < |w.tasks|
    ensures Inv(Exit(w, c, why))
  {
    NoteKeeps(w, Ended(c, why));
    QuietStepKeeps(Logged(w, Ended(c, why)), c, w.tasks[c].(queue := [], phase := Exited), w.lost + Sids(w.tasks[c].queue));
  }

  /** The loop takes a shutdown message from the front of its mailbox and acknowledges
      it; afterwards it is gone, or it is a WAL loop that had disabled itself. */
  lemma AckKeeps(w: World, c: Chan, t: Task, lost: set<nat>)
    requires Inv(w) && c < |w.tasks|
    requires w.tasks[c].queue != [] && w.tasks[c].queue[0].Stop? && t.slot == w.tasks[c].slot
    requires || (t.phase == Exited && t.queue == [] && lost == w.lost + Sids(w.tasks[c].queue[1..]))
             || (t.phase == Waiting && t.queue == w.tasks[c].queue[1..] && lost == w.lost
                 && t.slot.WalSlot? && w.tasks[c].phase == Draining)
    ensures var sid := w.tasks[c].queue[0].sid;
            Inv(Logged(SetTask(w, c, t).(acked := w.acked + {sid}, lost := lost), Acked(sid, c)))
  {
    var q := w.tasks[c].queue;
    var sid := q[0].sid;
    var e := Acked(sid, c);
    var w' := Logged(SetTask(w, c, t).(acked := w.acked + {sid}, lost := lost), e);
    assert QueueOk(w.tasks[c], c, w.stops, w.acked, w.lost);
    assert RegistryOk(w.reg, w'.tasks) by { RegistrySame(w.reg, w.tasks, w'.tasks); }
    assert SafeLog(w'.log, w'.tasks, w.stops) by { SafeLogMore(w.log, e, w.tasks, w'.tasks, w.stops, w.stops); }
    assert StopsOk(w.stops, w.reg, w'.log) by { StopsMore(w.stops, w.reg, w.log, e); }
    assert QueuesOk(w'.tasks, w.stops, w'.acked, lost) by { QueuesAfterAck(w, c, t, lost); }
    assert AcksOk(w'.tasks, w.stops, w'.acked, lost, w'.log) by { AcksAfterAck(w, c, t, sid, lost); }
  }

  lemma QueuesAfterAck(w: World, c: Chan, t: Task, lost: set<nat>)
    requires QueuesOk(w.tasks, w.stops, w.acked, w.lost) && c < |w.tasks|
    requires w.tasks[c].queue != [] && w.tasks[c].queue[0].Stop?
    requires || (t.phase == Exited && t.queue == [] && lost == w.lost + Sids(w.tasks[c].queue[1..]))
             || (t.phase == Waiting && t.queue == w.tasks[c].queue[1..] && lost == w.lost)
    ensures QueuesOk(w.tasks[c := t], w.stops, w.acked + {w.tasks[c].queue[0].sid}, lost)
  {
    var tasks', acked := w.tasks[c := t], w.acked + {w.tasks[c].queue[0].sid};
    assert QueueOk(w.tasks[c], c, w.stops, w.acked, w.lost);
    forall d | 0 <= d < |tasks'| ensures QueueOk(tasks'[d], d, w.stops, acked, lost) {
      assert QueueOk(w.tasks[d], d, w.stops, w.acked, w.lost);
    }
  }

  lemma AcksAfterAck(w: World, c: Chan, t: Task, sid: nat, lost: set<nat>)
    requires Inv(w) && c < |w.tasks| && t.slot == w.tasks[c].slot
    requires sid < |w.stops| && w.stops[sid].chan == c
    requires t.phase == Exited || (t.phase == Waiting && t.slot.WalSlot? && w.tasks[c].phase == Draining)
    requires forall x :: x in lost ==> x < |w.stops|
    ensures AcksOk(w.tasks[c := t], w.stops, w.acked + {sid}, lost, w.log + [Acked(sid, c)])
  {
    var tasks', log' := w.tasks[c := t], w.log + [Acked(sid, c)];
    forall i | 0 <= i < |log'| && log'[i].Acked? ensures AckOk(tasks', log', i) {
      if i < |w.log| {
        assert AckOk(w.tasks, w.log, i);
        assert log'[..i] == w.log[..i];
      } else {
        assert log'[..i] == w.log;
      }
    }
    assert log'[|w.log|] == Acked(sid, c);
    forall x | x in w.acked ensures Acked(x, w.stops[x].chan) in log' {
      assert Acked(x, w.stops[x].chan) in w.log;
    }
  }

  lemma ReceiveKeeps(w: World, c: Chan, runAsync: bool)
    requires Inv(w)
    ensures Inv(DoReceive(w, c, runAsync))
  {
    if c < |w.tasks| && w.tasks[c].phase == Waiting && w.tasks[c].queue != [] {
      var t := w.tasks[c];
      match t.queue[0] {
        case Stop(sid) => AckKeeps(w, c, t.(queue := [], phase := Exited), w.lost + Sids(t.queue[1..]));
        case Work => BeginKeeps(w, c, t.queue[1..], runAsync);
      }
    }
  }

  lemma TickKeeps(w: World, c: Chan, runAsync: bool)
    requires Inv(w)
    ensures Inv(DoTick(w, c, runAsync))
  {
    if c < |w.tasks| && w.tasks[c].slot.ScheduleSlot? && w.tasks[c].phase == Waiting {
      BeginKeeps(w, c, w.tasks[c].queue, runAsync);
    }
  }

  lemma StartKeeps(w: World, c: Chan)
    requires Inv(w)
    ensures Inv(DoStart(w, c))
  {
    if c < |w.tasks| && Busy(w.tasks[c]) {
      var e := Started(c);
      forall i | 0 <= i < |w.log| && w.log[i].Acked? && w.log[i].chan == c
        ensures w.tasks[c].slot.WalSlot? && AutoDisabled(c) in w.log[..i]
      {
        assert AckOk(w.tasks, w.log, i);
      }
      SafeLogMore(w.log, e, w.tasks, w.tasks, w.stops, w.stops);
      StopsMore(w.stops, w.reg, w.log, e);
      AcksMore(w.tasks, w.stops, w.acked, w.lost, w.log, e);
    }
  }

  /** An entry that is not an acknowledgement. */
  lemma AcksMore(tasks: seq<Task>, stops: seq<StopTask>, acked: set<nat>, lost: set<nat>, log: seq<Event>, e: Event)
    requires AcksOk(tasks, stops, acked, lost, log) && !e.Acked?
    ensures AcksOk(tasks, stops, acked, lost, log + [e])
  {
    var log' := log + [e];
    forall i | 0 <= i < |log'| && log'[i].Acked? ensures AckOk(tasks, log', i) {
      assert AckOk(tasks, log, i);
      assert log'[..i] == log[..i];
    }
  }

  lemma AutoDisableKeeps(w: World, c: Chan, t: Task)
    requires Inv(w) && c < |w.tasks| && Busy(w.tasks[c])
    requires t == w.tasks[c].(phase := Draining, inflight := t.inflight)
    ensures Inv(Logged(SetTask(w, c, t), AutoDisabled(c)))
  {
    var e := AutoDisabled(c);
    var w1 := Logged(w, e);
    SafeLogMore(w.log, e, w.tasks, w.tasks, w.stops, w.stops);
    StopsMore(w.stops, w.reg, w.log, e);
    AcksMore(w.tasks, w.stops, w.acked, w.lost, w.log, e);
    assert w1.log[|w.log|] == e;
    // now the loop may be put in the draining phase
    var w' := SetTask(w1, c, t);
    RegistrySame(w1.reg, w1.tasks, w'.tasks);
    SafeLogSame(w1.log, w1.tasks, w'.tasks, w1.stops, w1.stops);
    forall d | 0 <= d < |w1.tasks| ensures QueueOk(w'.tasks[d], d, w1.stops, w1.acked, w1.lost) {
      assert QueueOk(w1.tasks[d], d, w1.stops, w1.acked, w1.lost);
    }
    forall i | 0 <= i < |w1.log| && w1.log[i].Acked? ensures AckOk(w'.tasks, w1.log, i) {
      assert AckOk(w1.tasks, w1.log, i);
    }
  }

  lemma FinishKeeps(w: World, c: Chan, outcome: Outcome)
    requires Inv(w)
    ensures Inv(DoFinish(w, c, outcome))
  {
    if c < |w.tasks| && Busy(w.tasks[c]) {
      var t := w.tasks[c];
      var t' := if t.phase == Running then t.(phase := Waiting) else t.(inflight := t.inflight - 1);
      if Fatal(t, outcome) {
        ExitKeeps(w, c, RunFailed);
      } else if outcome == Disable && !t.slot.RequestSlot? {
        assert DoFinish(w, c, outcome) == Logged(SetTask(w, c, t'.(phase := Draining)), AutoDisabled(c));
        AutoDisableKeeps(w, c, t'.(phase := Draining));
      } else {
        assert DoFinish(w, c, outcome) == SetTask(w, c, t');
        assert Quietly(t, t');
        QuietMoveKeeps(w, c, t');
      }
    }
  }

  lemma DrainKeeps(w: World, c: Chan)
    requires Inv(w)
    ensures Inv(DoDrain(w, c))
  {
    if c < |w.tasks| && w.tasks[c].phase == Draining && w.tasks[c].queue != [] {
      var t := w.tasks[c];
      match t.queue[0] {
        case Work =>
          QuietMoveKeeps(w, c, t.(queue := t.queue[1..]));
        case Stop(sid) =>
          if t.slot.WalSlot? {
            AckKeeps(w, c, t.(queue := t.queue[1..], phase := Waiting), w.lost);
          } else {
            AckKeeps(w, c, t.(queue := [], phase := Exited), w.lost + Sids(t.queue[1..]));
          }
      }
    }
  }

  lemma CloseKeeps(w: World, c: Chan)
    requires Inv(w)
    ensures Inv(DoClose(w, c))
  {
    if DoClose(w, c) != w {
      var t := w.tasks[c];
      if t.phase == Draining && t.slot.WalSlot? {
        QuietMoveKeeps(w, c, t.(phase := Waiting));
      } else {
        ExitKeeps(w, c, MailboxClosed);
      }
    }
  }

  lemma RegisterKeeps(w: World, key: Key, spec: Spec)
    requires Inv(w)
    ensures Inv(DoRegister(w, key, spec))
  {
    if w.sending.Some? { return; }
    var w' := DoRegister(w, key, spec);
    var c, slot := |w.tasks|, SlotOf(key, spec);
    var e := RegisteredAt(c, slot);
    assert forall s :: MailboxAt(w'.reg, s) == if s == slot then Some(c) else MailboxAt(w.reg, s);
    assert RegistryOk(w'.reg, w'.tasks);
    assert SafeLog(w'.log, w'.tasks, w.stops) by { SafeLogMore(w.log, e, w.tasks, w'.tasks, w.stops, w.stops); }
    assert QueuesOk(w'.tasks, w.stops, w.acked, w.lost) by { QueuesOfMore(w, w'.tasks[c]); }
    assert AcksOk(w'.tasks, w.stops, w.acked, w.lost, w'.log) by {
      AcksMore(w.tasks, w.stops, w.acked, w.lost, w.log, e);
      AcksSame(w.tasks, w'.tasks, w.stops, w.stops, w.acked, w.lost, w'.log);
    }
    assert StopsOk(w.stops, w'.reg, w'.log) by { StopsAfterRegister(w, w'.reg, slot, c); }
  }

  lemma QueuesOfMore(w: World, t: Task)
    requires QueuesOk(w.tasks, w.stops, w.acked, w.lost) && t.queue == []
    ensures QueuesOk(w.tasks + [t], w.stops, w.acked, w.lost)
  {
    var tasks' := w.tasks + [t];
    forall d | 0 <= d < |tasks'| ensures QueueOk(tasks'[d], d, w.stops, w.acked, w.lost) {
      if d < |w.tasks| { assert QueueOk(w.tasks[d], d, w.stops, w.acked, w.lost); }
    }
  }

  lemma StopsAfterRegister(w: World, reg: Registry, slot: Slot, c: Chan)
    requires StopsOk(w.stops, w.reg, w.log) && ChansOk(w.stops, w.tasks, w.log) && c == |w.tasks|
    requires forall s :: MailboxAt(reg, s) == if s == slot then Some(c) else MailboxAt(w.reg, s)
    ensures StopsOk(w.stops, reg, w.log + [RegisteredAt(c, slot)])
  {
    var e := RegisteredAt(c, slot);
    forall sid | 0 <= sid < |w.stops| ensures StopOk(w.stops[sid], sid, reg, w.log + [e]) {
      assert StopOk(w.stops[sid], sid, w.reg, w.log);
      ReRegisteredMore(w.log, e, w.stops[sid].slot, w.stops[sid].sentAt);
    }
  }

  /** A cancellation or the end of a loop may be logged at any time. */
  lemma NoteKeeps(w: World, e: Event)
    requires Inv(w) && (e.Cancelled? || e.Ended?)
    ensures Inv(Logged(w, e))
  {
    SafeLogMore(w.log, e, w.tasks, w.tasks, w.stops, w.stops);
    StopsMore(w.stops, w.reg, w.log, e);
    AcksMore(w.tasks, w.stops, w.acked, w.lost, w.log, e);
  }

  lemma QueuesAfterSend(w: World, c: Chan, s: StopTask)
    requires Inv(w) && c < |w.tasks| && s.chan == c
    requires w.tasks[c].phase != Exited && |w.tasks[c].queue| < MAILBOX_SIZE
    ensures QueuesOk(w.tasks[c := w.tasks[c].(queue := w.tasks[c].queue + [Stop(|w.stops|)])], w.stops + [s], w.acked, w.lost)
  {
    var tasks' := w.tasks[c := w.tasks[c].(queue := w.tasks[c].queue + [Stop(|w.stops|)])];
    forall d | 0 <= d < |w.tasks| ensures QueueOk(tasks'[d], d, w.stops + [s], w.acked, w.lost) {
      assert QueueOk(w.tasks[d], d, w.stops, w.acked, w.lost);
    }
  }

  lemma SendStopKeeps(w: World)
    requires Inv(w)
    ensures Inv(DoSendStop(w))
  {
    if w.sending.Some? {
      var Sending(slot, c, removes) := w.sending.value;
      if c < |w.tasks| && w.tasks[c].phase != Exited && |w.tasks[c].queue| < MAILBOX_SIZE {
        DeliveryKeeps(w, slot, c, removes);
      }
    }
  }

  /** The message goes into the mailbox found at the slot. */
  lemma DeliveryKeeps(w: World, slot: Slot, c: Chan, removes: bool)
    requires Inv(w) && w.sending == Some(Sending(slot, c, removes)) && c < |w.tasks|
    requires w.tasks[c].phase != Exited && |w.tasks[c].queue| < MAILBOX_SIZE
    ensures Inv(DoSendStop(w))
  {
    var sid := |w.stops|;
    var s := StopTask(slot, c, |w.log|, removes, true);
    var e := StopSent(sid, c);
    var tasks', stops', log' := w.tasks[c := w.tasks[c].(queue := w.tasks[c].queue + [Stop(sid)])], w.stops + [s], w.log + [e];
    assert RegistryOk(w.reg, tasks') by { RegistrySame(w.reg, w.tasks, tasks'); }
    assert SafeLog(log', tasks', stops') by { SafeLogMore(w.log, e, w.tasks, tasks', w.stops, stops'); }
    assert QueuesOk(tasks', stops', w.acked, w.lost) by { QueuesAfterSend(w, c, s); }
    assert AcksOk(tasks', stops', w.acked, w.lost, log') by {
      AcksMore(w.tasks, w.stops, w.acked, w.lost, w.log, e);
      AcksSame(w.tasks, tasks', w.stops, stops', w.acked, w.lost, log');
    }
    assert StopsOk(stops', w.reg, log') by { StopsAfterSend(w.stops, w.reg, w.log, s); }
    assert ChansOk(stops', tasks', log');
    assert DoSendStop(w) == World(w.reg, tasks', stops', w.acked, w.lost, log', None);
  }

  lemma StopsAfterSend(stops: seq<StopTask>, reg: Registry, log: seq<Event>, s: StopTask)
    requires StopsOk(stops, reg, log) && s.sentAt == |log| && MailboxAt(reg, s.slot) == Some(s.chan)
    ensures StopsOk(stops + [s], reg, log + [StopSent(|stops|, s.chan)])
  {
    var e := StopSent(|stops|, s.chan);
    StopsMore(stops, reg, log, e);
    assert StopOk(s, |stops|, reg, log + [e]);
  }

  /** Loops stay in their phases, or are new; stop tasks may be added. */
  lemma AcksSame(tasks: seq<Task>, tasks': seq<Task>, stops: seq<StopTask>, stops': seq<StopTask>,
                 acked: set<nat>, lost: set<nat>, log: seq<Event>)
    requires AcksOk(tasks, stops, acked, lost, log) && SameSlots(tasks, tasks') && SameStops(stops, stops')
    requires forall c :: 0 <= c < |tasks| ==> tasks'[c].phase == tasks[c].phase
    requires forall c :: |tasks| <= c < |tasks'| ==> tasks'[c].phase == Waiting
    ensures AcksOk(tasks', stops', acked, lost, log)
  {
    forall i | 0 <= i < |log| && log[i].Acked? ensures AckOk(tasks', log, i) {
      assert AckOk(tasks, log, i);
    }
  }

  lemma BeginStopKeeps(w: World, slot: Slot, removes: bool)
    requires Inv(w)
    ensures Inv(DoBeginStop(w, slot, removes))
  {
    if w.sending.None? && MailboxAt(w.reg, slot).Some? {
      if slot.ScheduleSlot? {
        assert slot.key in w.reg.cancels;
        var t := w.reg.cancels[slot.key];
        NoteKeeps(w, Cancelled(t));
        assert (w.log + [Cancelled(t)])[|w.log|] == Cancelled(t);
      }
    }
  }

  /** Taking registrations away, all of a slot or none. */
  lemma FewerRegistrations(w: World, reg: Registry)
    requires Inv(w) && w.sending.None?
    requires forall s :: MailboxAt(reg, s).Some? ==> MailboxAt(reg, s) == MailboxAt(w.reg, s)
    requires SameTriggers(reg) && forall k :: k in reg.cancels ==> k in w.reg.cancels && reg.cancels[k] == w.reg.cancels[k]
    ensures Inv(w.(reg := reg))
  {
    forall k | k in reg.cancels && k in reg.schedule ensures reg.cancels[k] == reg.schedule[k] {
      assert MailboxAt(reg, ScheduleSlot(k)) == MailboxAt(w.reg, ScheduleSlot(k));
    }
    forall sid | 0 <= sid < |w.stops| ensures StopOk(w.stops[sid], sid, reg, w.log) {
      assert StopOk(w.stops[sid], sid, w.reg, w.log);
    }
  }

  lemma ClearDbKeeps(w: World, db: string, paths: seq<string>)
    requires Inv(w) && w.sending.None?
    ensures Inv(w.(reg := RemoveDb(w.reg, db, paths)))
  {
    FewerRegistrations(w, RemoveDb(w.reg, db, paths));
  }

  /** The removal may be logged when the stop was acknowledged. */
  lemma RemovalKeeps(w: World, sid: nat)
    requires Inv(w) && sid < |w.stops| && w.stops[sid].open && sid in w.acked && MailboxAt(w.reg, w.stops[sid].slot).Some?
    ensures Inv(Logged(w, Removed(sid, MailboxAt(w.reg, w.stops[sid].slot).value)))
  {
    var s := w.stops[sid];
    var e := Removed(sid, MailboxAt(w.reg, s.slot).value);
    assert StopOk(s, sid, w.reg, w.log);
    ReRegisteredMore(w.log, e, s.slot, s.sentAt);
    assert (w.log + [e])[..|w.log|] == w.log;
    assert SafeLog(w.log + [e], w.tasks, w.stops) by { SafeLogMore(w.log, e, w.tasks, w.tasks, w.stops, w.stops); }
    assert StopsOk(w.stops, w.reg, w.log + [e]) by { StopsMore(w.stops, w.reg, w.log, e); }
    assert AcksOk(w.tasks, w.stops, w.acked, w.lost, w.log + [e]) by { AcksMore(w.tasks, w.stops, w.acked, w.lost, w.log, e); }
  }

  lemma EndStopKeeps(w: World, sid: nat)
    requires Inv(w)
    ensures Inv(DoEndStop(w, sid))
  {
    if sid < |w.stops| && w.stops[sid].open && (sid in w.acked || sid in w.lost) {
      var s := w.stops[sid];
      if sid in w.acked && s.removes && MailboxAt(w.reg, s.slot).Some? {
        if w.sending.None? {
          RemovalKeeps(w, sid);
          var w1 := Logged(w, Removed(sid, MailboxAt(w.reg, s.slot).value));
          FewerRegistrations(w1, Clear(w.reg, s.slot));
          CloseStopKeeps(w1.(reg := Clear(w.reg, s.slot)), sid);
        }
      } else {
        CloseStopKeeps(w, sid);
      }
    }
  }

  lemma CloseStopKeeps(w: World, sid: nat)
    requires Inv(w) && sid < |w.stops|
    ensures Inv(w.(stops := w.stops[sid := w.stops[sid].(open := false)]))
  {
    var stops' := w.stops[sid := w.stops[sid].(open := false)];
    SafeLogSame(w.log, w.tasks, w.tasks, w.stops, stops');
    forall c | 0 <= c < |w.tasks| ensures QueueOk(w.tasks[c], c, stops', w.acked, w.lost) {
      assert QueueOk(w.tasks[c], c, w.stops, w.acked, w.lost);
    }
    forall x | 0 <= x < |stops'| ensures StopOk(stops'[x], x, w.reg, w.log) {
      assert StopOk(w.stops[x], x, w.reg, w.log);
    }
  }

  lemma StepKeeps(w: World, a: Action)
    requires Inv(w)
    ensures Inv(Step(w, a))
  {
    match a
    case Register(key, spec) => RegisterKeeps(w, key, spec);
    case SendWork(c) => SendWorkKeeps(w, c);
    case BeginStop(slot, removes) => BeginStopKeeps(w, slot, removes);
    case SendStop => SendStopKeeps(w);
    case EndStop(sid) => EndStopKeeps(w, sid);
    case ClearDb(db, paths) => if w.sending.None? { ClearDbKeeps(w, db, paths); }
    case Receive(c, runAsync) => ReceiveKeeps(w, c, runAsync);
    case Tick(c, runAsync) => TickKeeps(w, c, runAsync);
    case GiveUp(c) =>
      if c < |w.tasks| && w.tasks[c].slot.ScheduleSlot? && w.tasks[c].phase == Waiting { ExitKeeps(w, c, NothingToRun); }
    case Start(c) => StartKeeps(w, c);
    case Finish(c, outcome) => FinishKeeps(w, c, outcome);
    case Drain(c) => DrainKeeps(w, c);
    case Close(c) => CloseKeeps(w, c);
  }

  lemma {:induction false} RunKeeps(actions: seq<Action>)
    ensures Inv(Run(actions))
  {
    if actions != [] {
      RunKeeps(actions[..|actions| - 1]);
      StepKeeps(Run(actions[..|actions| - 1]), actions[|actions| - 1]);
    }
  }

  lemma AddresseesAcked(w: World)
    requires AcksOk(w.tasks, w.stops, w.acked, w.lost, w.log) && AckedOnce(w.log)
    ensures AckedByAddressee(w.log, w.stops)
  {
    forall i | 0 <= i < |w.log| && w.log[i].Acked?
      ensures w.log[i].sid < |w.stops| && w.log[i].chan == w.stops[w.log[i].sid].chan
    {
      var sid := w.log[i].sid;
      assert sid in w.acked && Acked(sid, w.stops[sid].chan) in w.log;
      var j :| 0 <= j < |w.log| && w.log[j] == Acked(sid, w.stops[sid].chan);
      assert i == j;
    }
  }

  // ----- what becomes of every shutdown ----------------------------------------------------

  /** The event takes the loop away from shutdown message `sid`: a failed run, nothing more to
      run at, or an earlier shutdown. */
  predicate TakesAway(e: Event, c: Chan, sid: nat) {
    || (e.Ended? && e.chan == c && e.why != MailboxClosed)
    || (e.Acked? && e.chan == c && e.sid < sid)
  }

  ghost predicate TakenAway(log: seq<Event>, s: StopTask, sid: nat) {
    exists i :: s.sentAt < i < |log| && TakesAway(log[i], s.chan, sid)
  }

  /** The message is in its loop's mailbox, or acknowledged, or its loop ended otherwise after
      it was sent. */
  ghost predicate Answered(tasks: seq<Task>, log: seq<Event>, s: StopTask, sid: nat) {
    s.chan < |tasks| && (Stop(sid) in tasks[s.chan].queue || Acked(sid, s.chan) in log || TakenAway(log, s, sid))
  }

  ghost predicate AllAnswered(w: World) {
    forall sid :: 0 <= sid < |w.stops| ==> Answered(w.tasks, w.log, w.stops[sid], sid)
  }

  /** Nothing that answers a shutdown goes away from the log. */
  lemma AnsweredLater(w: World, w': World)
    requires AllAnswered(w) && w.log <= w'.log && SameStops(w.stops, w'.stops) && |w.tasks| <= |w'.tasks|
    requires forall sid :: 0 <= sid < |w.stops| && Stop(sid) in w.tasks[w.stops[sid].chan].queue ==>
               Answered(w'.tasks, w'.log, w'.stops[sid], sid)
    requires forall sid :: |w.stops| <= sid < |w'.stops| ==> Answered(w'.tasks, w'.log, w'.stops[sid], sid)
    ensures AllAnswered(w')
  {
    forall sid | 0 <= sid < |w'.stops| ensures Answered(w'.tasks, w'.log, w'.stops[sid], sid) {
      if sid < |w.stops| {
        assert Answered(w.tasks, w.log, w.stops[sid], sid);
        if TakenAway(w.log, w.stops[sid], sid) {
          var i :| w.stops[sid].sentAt < i < |w.log| && TakesAway(w.log[i], w.stops[sid].chan, sid);
          assert w'.log[i] == w.log[i];
        }
      }
    }
  }

  /** Messages stay in the mailboxes. */
  lemma AnsweredSame(w: World, w': World)
    requires AllAnswered(w) && w.log <= w'.log && SameStops(w.stops, w'.stops) && |w'.stops| == |w.stops|
    requires |w.tasks| <= |w'.tasks|
    requires forall c :: 0 <= c < |w.tasks| ==> w'.tasks[c].queue == w.tasks[c].queue
    ensures AllAnswered(w')
  {
    AnsweredLater(w, w');
  }

  /** Work comes into or goes out of one mailbox. */
  lemma AnsweredAfterWork(w: World, c: Chan, t: Task)
    requires AllAnswered(w) && c < |w.tasks|
    requires forall m :: m in w.tasks[c].queue && m.Stop? ==> m in t.queue
    ensures AllAnswered(SetTask(w, c, t))
  {
    AnsweredLater(w, SetTask(w, c, t));
  }

  lemma FrontIsWork(q: seq<Msg>)
    requires q != [] && q[0] == Work
    ensures forall m :: m in q && m.Stop? ==> m in q[1..]
  {
    assert q == [q[0]] + q[1..];
  }

  /** The loop acknowledges the first message of its mailbox; if it then ends, the others are
      lost to it. */
  lemma AnsweredAfterAck(w: World, w': World, c: Chan, t: Task)
    requires Inv(w) && AllAnswered(w) && c < |w.tasks| && w.tasks[c].queue != [] && w.tasks[c].queue[0].Stop?
    requires w'.tasks == w.tasks[c := t] && w'.stops == w.stops && w'.log == w.log + [Acked(w.tasks[c].queue[0].sid, c)]
    ensures AllAnswered(w')
  {
    var q, e := w.tasks[c].queue, Acked(w.tasks[c].queue[0].sid, c);
    assert w'.log[|w.log|] == e;
    forall sid | 0 <= sid < |w.stops| && Stop(sid) in w.tasks[w.stops[sid].chan].queue
      ensures Answered(w'.tasks, w'.log, w.stops[sid], sid)
    {
      var d := w.stops[sid].chan;
      if d == c && sid != e.sid {
        assert QueueOk(w.tasks[c], c, w.stops, w.acked, w.lost);
        var i :| 0 <= i < |q| && q[i] == Stop(sid);
        assert StopOk(w.stops[sid], sid, w.reg, w.log);
        assert TakesAway(w'.log[|w.log|], c, sid);
      } else if d == c {
        assert QueueOk(w.tasks[c], c, w.stops, w.acked, w.lost);
      }
    }
    AnsweredLater(w, w');
  }

  /** The loop ends by itself. */
  lemma AnsweredAfterExit(w: World, c: Chan, why: Why)
    requires Inv(w) && AllAnswered(w) && c < |w.tasks| && (why == MailboxClosed ==> w.tasks[c].queue == [])
    ensures AllAnswered(Exit(w, c, why))
  {
    var w' := Exit(w, c, why);
    assert w'.log[|w.log|] == Ended(c, why);
    forall sid | 0 <= sid < |w.stops| && Stop(sid) in w.tasks[w.stops[sid].chan].queue
      ensures Answered(w'.tasks, w'.log, w.stops[sid], sid)
    {
      if w.stops[sid].chan == c {
        assert StopOk(w.stops[sid], sid, w.reg, w.log);
        assert TakesAway(w'.log[|w.log|], c, sid);
      }
    }
    AnsweredLater(w, w');
  }

  lemma AnsweredAfterSend(w: World)
    requires Inv(w) && AllAnswered(w)
    ensures AllAnswered(DoSendStop(w))
  {
    var w' := DoSendStop(w);
    if |w'.stops| > |w.stops| {
      var c, sid := w.sending.value.chan, |w.stops|;
      assert w'.tasks[c].queue == w.tasks[c].queue + [Stop(sid)];
      assert w'.tasks[c].queue[|w.tasks[c].queue|] == Stop(sid);
      AnsweredLater(w, w');
    }
  }

  lemma AnsweredAfterReceive(w: World, c: Chan, runAsync: bool)
    requires Inv(w) && AllAnswered(w)
    ensures AllAnswered(DoReceive(w, c, runAsync))
  {
    if c < |w.tasks| && w.tasks[c].phase == Waiting && w.tasks[c].queue != [] {
      var w', q := DoReceive(w, c, runAsync), w.tasks[c].queue;
      if q[0] == Work {
        FrontIsWork(q);
        AnsweredAfterWork(w, c, w'.tasks[c]);
      } else {
        AnsweredAfterAck(w, w', c, w'.tasks[c]);
      }
    }
  }

  lemma AnsweredAfterDrain(w: World, c: Chan)
    requires Inv(w) && AllAnswered(w)
    ensures AllAnswered(DoDrain(w, c))
  {
    if c < |w.tasks| && w.tasks[c].phase == Draining && w.tasks[c].queue != [] {
      var w', q := DoDrain(w, c), w.tasks[c].queue;
      if q[0] == Work {
        FrontIsWork(q);
        AnsweredAfterWork(w, c, w'.tasks[c]);
      } else {
        AnsweredAfterAck(w, w', c, w'.tasks[c]);
      }
    }
  }

  lemma AnsweredAfterFinish(w: World, c: Chan, outcome: Outcome)
    requires Inv(w) && AllAnswered(w)
    ensures AllAnswered(DoFinish(w, c, outcome))
  {
    if c < |w.tasks| && Busy(w.tasks[c]) && Fatal(w.tasks[c], outcome) {
      AnsweredAfterExit(w, c, RunFailed);
    } else {
      AnsweredSame(w, DoFinish(w, c, outcome));
    }
  }

  lemma AnsweredStep(w: World, a: Action)
    requires Inv(w) && AllAnswered(w)
    ensures AllAnswered(Step(w, a))
  {
    match a
    case SendStop => AnsweredAfterSend(w);
    case SendWork(c) => if DoSendWork(w, c) != w { AnsweredAfterWork(w, c, DoSendWork(w, c).tasks[c]); }
    case Receive(c, runAsync) => AnsweredAfterReceive(w, c, runAsync);
    case Drain(c) => AnsweredAfterDrain(w, c);
    case Finish(c, outcome) => AnsweredAfterFinish(w, c, outcome);
    case GiveUp(c) => if DoGiveUp(w, c) != w { AnsweredAfterExit(w, c, NothingToRun); }
    case Close(c) =>
      if DoClose(w, c) != w && DoClose(w, c).tasks[c].phase == Exited { AnsweredAfterExit(w, c, MailboxClosed); }
      else { AnsweredSame(w, DoClose(w, c)); }
    case _ => QueuesStay(w, a);
  }

  /** The other steps leave the mailboxes alone. */
  lemma QueuesStay(w: World, a: Action)
    requires AllAnswered(w)
    requires a.EndStop? || a.Register? || a.BeginStop? || a.ClearDb? || a.Tick? || a.Start?
    ensures AllAnswered(Step(w, a))
  {
    AnsweredSame(w, Step(w, a));
  }

  /** Over every run: each shutdown sent is in the mailbox, acknowledged, or lost to a loop
      that ended after it was sent for an error, for want of something to run at or by an
      earlier shutdown. */
  lemma {:induction false} EveryStopIsAnswered(actions: seq<Action>)
    ensures AllAnswered(Run(actions))
  {
    if actions != [] {
      var init := actions[..|actions| - 1];
      RunKeeps(init);
      EveryStopIsAnswered(init);
      AnsweredStep(Run(init), actions[|actions| - 1]);
    }
  }

  /** A loop ends without a shutdown only for these reasons: a WAL loop with the run it waits
      for, a schedule loop at a tick, or a loop whose mailbox is empty and has no sender. */
  lemma EndsOnlySo(w: World, a: Action, c: Chan, why: Why)
    requires Step(w, a).log == w.log + [Ended(c, why)]
    ensures c < |w.tasks| && w.tasks[c].phase != Exited
    ensures why == RunFailed ==> a == Finish(c, Error) && w.tasks[c].slot.WalSlot? && w.tasks[c].phase == Running
    ensures why == NothingToRun ==> a == GiveUp(c) && w.tasks[c].slot.ScheduleSlot? && w.tasks[c].phase == Waiting
    ensures why == MailboxClosed ==> w.tasks[c].queue == [] && !HasSender(w.reg, c)
  {
    var log := Step(w, a).log;
    assert log[|w.log|] == Ended(c, why) && log != w.log;
  }

  /** A mailbox has a sender exactly while it is registered somewhere. */
  lemma SendersAreRegistered(r: Registry, c: Chan)
    ensures HasSender(r, c) <==> exists s :: MailboxAt(r, s) == Some(c)
  {
    if c in r.wal.Values {
      var k :| k in r.wal && r.wal[k] == c;
      assert MailboxAt(r, WalSlot(k)) == Some(c);
    } else if c in r.schedule.Values {
      var k :| k in r.schedule && r.schedule[k] == c;
      assert MailboxAt(r, ScheduleSlot(k)) == Some(c);
    } else if c in r.request.Values {
      var p :| p in r.request && r.request[p] == c;
      assert MailboxAt(r, RequestSlot(p)) == Some(c);
    }
  }

  /** And for each of them it does end, or disable itself, exactly then. */
  lemma EndsExactly(w: World, c: Chan)
    requires c < |w.tasks|
    ensures var t := w.tasks[c];
            && (Step(w, Finish(c, Error)).log == w.log + [Ended(c, RunFailed)] <==> t.slot.WalSlot? && t.phase == Running)
            && (Step(w, GiveUp(c)).log == w.log + [Ended(c, NothingToRun)] <==> t.slot.ScheduleSlot? && t.phase == Waiting)
            && (Step(w, Close(c)).log == w.log + [Ended(c, MailboxClosed)] <==>
                t.queue == [] && (forall s :: MailboxAt(w.reg, s) != Some(c)) && (t.phase == Waiting || (t.phase == Draining && !t.slot.WalSlot?)))
            && (Step(w, Finish(c, Disable)).log == w.log + [AutoDisabled(c)] <==>
                !t.slot.RequestSlot? && (t.phase == Running || (t.phase == Waiting && t.inflight > 0)))
  {
    SendersAreRegistered(w.reg, c);
    forall e: Event ensures w.log + [e] != w.log { assert |w.log + [e]| == |w.log| + 1; }
  }

  /** A cleared database leaves no trace, and no other slot changes. */
  lemma ClearedDbIsGone(w: World, db: string, paths: seq<string>, s: Slot)
    requires w.sending.None?
    ensures NoTrace(Step(w, ClearDb(db, paths)).reg, db, paths)
    ensures MailboxAt(Step(w, ClearDb(db, paths)).reg, s) ==
            if (if s.RequestSlot? then s.path in paths else s.key.0 == db) then None else MailboxAt(w.reg, s)
  {}

  // ----- that shutdowns can be answered ----------------------------------------------------

  function After(w: World, actions: seq<Action>): World {
    if actions == [] then w else Step(After(w, actions[..|actions| - 1]), actions[|actions| - 1])
  }

  lemma AfterOne(w: World, a: Action)
    ensures After(w, [a]) == Step(w, a)
  {
    assert [a][..0] == [] && After(w, []) == w;
  }

  lemma {:induction false} AfterBoth(w: World, a: seq<Action>, b: seq<Action>)
    ensures After(w, a + b) == After(After(w, a), b)
  {
    if b == [] {
      assert a + b == a;
    } else {
      assert (a + b)[..|a + b| - 1] == a + b[..|b| - 1];
      AfterBoth(w, a, b[..|b| - 1]);
    }
  }

  lemma AfterTwo(w: World, a: Action, b: Action)
    ensures After(w, [a, b]) == Step(Step(w, a), b)
  {
    AfterBoth(w, [a], [b]);
    AfterOne(w, a);
    AfterOne(Step(w, a), b);
    assert [a, b] == [a] + [b];
  }

  lemma AfterParts(w: World, a: seq<Action>, b: seq<Action>, c: seq<Action>)
    ensures After(w, a + b + c) == After(After(After(w, a), b), c)
  {
    AfterBoth(w, a, b);
    AfterBoth(w, a + b, c);
  }

  lemma OneBefore(w: World, a: Action, b: seq<Action>)
    ensures After(w, [a] + b) == After(Step(w, a), b)
  {
    AfterBoth(w, [a], b);
    AfterOne(w, a);
  }

  /** Nothing but the loop's own task changes and the acknowledgement is logged. */
  ghost predicate JustAcked(w: World, w': World, c: Chan, sid: nat) {
    && w'.log == w.log + [Acked(sid, c)] && w'.acked == w.acked + {sid}
    && w'.reg == w.reg && w'.stops == w.stops && w'.sending == w.sending
    && |w'.tasks| == |w.tasks| && forall d :: 0 <= d < |w.tasks| && d != c ==> w'.tasks[d] == w.tasks[d]
  }

  /** The first shutdown in the mailbox of a loop that is not gone can be acknowledged by
      steps of that loop alone, whatever it is doing and however much work comes before. */
  lemma {:induction false} CanBeAnswered(w: World, c: Chan, k: nat, sid: nat) returns (actions: seq<Action>)
    requires c < |w.tasks| && w.tasks[c].phase != Exited
    requires k < |w.tasks[c].queue| && w.tasks[c].queue[k] == Stop(sid)
    requires forall i :: 0 <= i < k ==> w.tasks[c].queue[i] == Work
    ensures JustAcked(w, After(w, actions), c, sid)
    ensures w.tasks[c].phase == Waiting && k == 0 ==> actions == [Receive(c, false)]
    decreases k, w.tasks[c].phase == Running
  {
    var t := w.tasks[c];
    var a := if t.phase == Running then Finish(c, Success) else if t.phase == Draining then Drain(c) else Receive(c, false);
    AfterOne(w, a);
    if t.phase != Running && k == 0 {
      actions := [a];
    } else {
      var w1 := Step(w, a);
      if t.phase == Running {
        assert w1.tasks[c] == t.(phase := Waiting);
        actions := CanBeAnswered(w1, c, k, sid);
      } else {
        assert w1.tasks[c].queue == t.queue[1..];
        actions := CanBeAnswered(w1, c, k - 1, sid);
      }
      OneBefore(w, a, actions);
      actions := [a] + actions;
    }
  }

  /** The entries a stop of a slot leaves: the cancellation comes first. */
  function StopEntries(slot: Slot, c: Chan, sid: nat): seq<Event> {
    (if slot.ScheduleSlot? then [Cancelled(c)] else []) + [StopSent(sid, c)]
  }

  /** Beginning a stop and sending its message. */
  lemma StopIsSent(w: World, slot: Slot, c: Chan)
    requires Inv(w) && w.sending.None? && MailboxAt(w.reg, slot) == Some(c)
    requires c < |w.tasks| && w.tasks[c].phase != Exited && |w.tasks[c].queue| < MAILBOX_SIZE
    ensures var sid, w' := |w.stops|, Step(Step(w, BeginStop(slot, true)), SendStop);
            && w'.log == w.log + StopEntries(slot, c, sid) && w'.reg == w.reg && w'.sending.None? && w'.acked == w.acked
            && w'.tasks == w.tasks[c := w.tasks[c].(queue := w.tasks[c].queue + [Stop(sid)])]
            && |w'.stops| == sid + 1 && w'.stops[sid].slot == slot && w'.stops[sid].removes && w'.stops[sid].open
  {
    var w1 := Step(w, BeginStop(slot, true));
    if slot.ScheduleSlot? {
      assert slot.key in w.reg.cancels && w.reg.cancels[slot.key] == c;
      assert w1.log == w.log + [Cancelled(c)];
    } else {
      assert w1.log == w.log;
    }
    assert w1.sending == Some(Sending(slot, c, true)) && w1.tasks == w.tasks && w1.stops == w.stops;
  }

  lemma StopIsEnded(w: World, slot: Slot, c: Chan, sid: nat)
    requires w.sending.None? && MailboxAt(w.reg, slot) == Some(c) && sid in w.acked
    requires sid < |w.stops| && w.stops[sid].slot == slot && w.stops[sid].removes && w.stops[sid].open
    ensures var w' := Step(w, EndStop(sid));
            && w'.log == w.log + [Removed(sid, c)] && MailboxAt(w'.reg, slot).None?
            && forall s :: s != slot ==> MailboxAt(w'.reg, s) == MailboxAt(w.reg, s)
  {}

  /** The stop of a slot has emptied it, and no other, and logged just this. */
  ghost predicate Stopped(w: World, w': World, slot: Slot, c: Chan, sid: nat) {
    && w'.log == w.log + StopEntries(slot, c, sid) + [Acked(sid, c), Removed(sid, c)]
    && MailboxAt(w'.reg, slot).None? && forall s :: s != slot ==> MailboxAt(w'.reg, s) == MailboxAt(w.reg, s)
  }

  /** Every kind of trigger can be stopped in every reachable state in which its loop is not
      gone and no stop is under way, by the stop, some steps of the loop and the end of the
      stop; one step is enough for a loop that waits at an empty mailbox. */
  lemma CanBeStopped(w: World, slot: Slot, c: Chan) returns (actions: seq<Action>)
    requires Inv(w) && w.sending.None? && MailboxAt(w.reg, slot) == Some(c)
    requires c < |w.tasks| && w.tasks[c].phase != Exited && |w.tasks[c].queue| < MAILBOX_SIZE
    requires forall i :: 0 <= i < |w.tasks[c].queue| ==> w.tasks[c].queue[i] == Work
    ensures Stopped(w, After(w, [BeginStop(slot, true), SendStop] + actions + [EndStop(|w.stops|)]), slot, c, |w.stops|)
    ensures w.tasks[c].phase == Waiting && w.tasks[c].queue == [] ==> actions == [Receive(c, false)]
  {
    var sid := |w.stops|;
    AfterTwo(w, BeginStop(slot, true), SendStop);
    StopIsSent(w, slot, c);
    var w1 := After(w, [BeginStop(slot, true), SendStop]);
    actions := CanBeAnswered(w1, c, |w.tasks[c].queue|, sid);
    AfterOne(After(w1, actions), EndStop(sid));
    AfterParts(w, [BeginStop(slot, true), SendStop], actions, [EndStop(sid)]);
    AckedStopIsEnded(w, w1, After(w1, actions), slot, c, sid);
  }

  lemma AckedStopIsEnded(w: World, w1: World, w2: World, slot: Slot, c: Chan, sid: nat)
    requires w1.log == w.log + StopEntries(slot, c, sid) && w1.reg == w.reg && JustAcked(w1, w2, c, sid)
    requires w1.sending.None? && MailboxAt(w.reg, slot) == Some(c)
    requires sid < |w1.stops| && w1.stops[sid].slot == slot && w1.stops[sid].removes && w1.stops[sid].open
    ensures Stopped(w, Step(w2, EndStop(sid)), slot, c, sid)
  {
    StopIsEnded(w2, slot, c, sid);
    assert w1.log + [Acked(sid, c)] + [Removed(sid, c)] == w1.log + [Acked(sid, c), Removed(sid, c)];
  }

  /** What brings the loop of a new registration to run: a tick or a message. */
  function Call(c: Chan, spec: Spec): seq<Action> {
    if spec.ScheduleSpec? then [Tick(c, false)] else [SendWork(c), Receive(c, false)]
  }

  /** From every reachable state without a stop under way: a trigger that is registered is
      found at its slot and nothing else changes, and its loop runs when called, then waits. */
  lemma RegisteredTriggerRuns(w: World, key: Key, spec: Spec)
    requires Inv(w) && w.sending.None?
    ensures var c, slot := |w.tasks|, SlotOf(key, spec);
            var w' := After(w, [Register(key, spec)] + Call(c, spec) + [Start(c), Finish(c, Success)]);
            && w'.log == w.log + [RegisteredAt(c, slot), Started(c)]
            && w'.tasks == w.tasks + [Task(slot, [], Waiting, 0)] && w'.sending.None?
            && forall s :: MailboxAt(w'.reg, s) == if s == slot then Some(c) else MailboxAt(w.reg, s)
  {
    var c, slot := |w.tasks|, SlotOf(key, spec);
    var w1 := Step(w, Register(key, spec));
    AfterOne(w, Register(key, spec));
    CalledLoopRuns(w1, key, spec, c);
    AfterTwo(After(w1, Call(c, spec)), Start(c), Finish(c, Success));
    AfterParts(w, [Register(key, spec)], Call(c, spec), [Start(c), Finish(c, Success)]);
    RunIsOver(w1, c);
    assert w.log + [RegisteredAt(c, slot)] + [Started(c)] == w.log + [RegisteredAt(c, slot), Started(c)];
  }

  lemma RunIsOver(w: World, c: Chan)
    requires c < |w.tasks| && w.tasks[c].phase == Waiting
    ensures Step(Step(w.(tasks := w.tasks[c := w.tasks[c].(phase := Running)]), Start(c)), Finish(c, Success)) ==
            Logged(w, Started(c))
  {
    var t := w.tasks[c];
    var running := w.tasks[c := t.(phase := Running)];
    assert running[c := t.(phase := Running).(phase := Waiting)] == w.tasks;
  }

  lemma CalledLoopRuns(w: World, key: Key, spec: Spec, c: Chan)
    requires c < |w.tasks| && w.tasks[c] == Task(SlotOf(key, spec), [], Waiting, 0)
    requires MailboxAt(w.reg, SlotOf(key, spec)) == Some(c) && w.sending.None?
    ensures After(w, Call(c, spec)) == w.(tasks := w.tasks[c := w.tasks[c].(phase := Running)])
  {
    if spec.ScheduleSpec? {
      AfterOne(w, Tick(c, false));
    } else {
      SendersAreRegistered(w.reg, c);
      WorkIsTakenUp(w, c);
      AfterTwo(w, SendWork(c), Receive(c, false));
    }
  }

  lemma WorkIsTakenUp(w: World, c: Chan)
    requires c < |w.tasks| && w.tasks[c].queue == [] && w.tasks[c].phase == Waiting
    requires HasSender(w.reg, c) && w.sending.None?
    ensures Step(Step(w, SendWork(c)), Receive(c, false)) == w.(tasks := w.tasks[c := w.tasks[c].(phase := Running)])
  {
    var t := w.tasks[c];
    var w1 := SetTask(w, c, t.(queue := [Work]));
    assert [] + [Work] == [Work] && [Work][1..] == [];
    assert Step(w, SendWork(c)) == w1;
    assert Step(w1, Receive(c, false)) == SetTask(w1, c, t.(phase := Running));
    assert w1.tasks[c := t.(phase := Running)] == w.tasks[c := t.(phase := Running)];
  }

  /** Every run of the protocol, in any order of steps. */
  lemma RunIsSafe(actions: seq<Action>)
    ensures var w := Run(actions);
            && AckedOnce(w.log)
            && AckedByAddressee(w.log, w.stops)
            && QuietAfterAck(w.log, w.tasks)
            && CancelledBeforeStop(w.log, w.tasks)
            && RemovedAfterAck(w.log, w.stops)
            && OwnTokens(w.reg)
            && forall c :: 0 <= c < |w.tasks| ==> |w.tasks[c].queue| <= MAILBOX_SIZE
  {
    RunKeeps(actions);
    var w := Run(actions);
    AddresseesAcked(w);
    forall c | 0 <= c < |w.tasks| ensures |w.tasks[c].queue| <= MAILBOX_SIZE {
      assert QueueOk(w.tasks[c], c, w.stops, w.acked, w.lost);
    }
  }

  // ----- the two exceptions do occur -------------------------------------------------------

  lemma RunOneMore(actions: seq<Action>, a: Action)
    ensures Run(actions + [a]) == Step(Run(actions), a)
  {
    assert (actions + [a])[..|actions|] == actions;
  }

  lemma SelfDisabling(key: Key) returns (actions: seq<Action>)
    ensures var w := Run(actions);
            && w.reg.wal == map[key := 0] && w.stops == []
            && w.tasks == [Task(WalSlot(key), [], Draining, 0)]
            && w.log == [RegisteredAt(0, WalSlot(key)), Started(0), AutoDisabled(0)] && w.sending.None?
  {
    var a1 := [] + [Register(key, WalSpec)];
    RunOneMore([], Register(key, WalSpec));
    var w1 := Run(a1);
    assert w1.reg.wal[key] == 0 && w1.tasks == [Task(WalSlot(key), [], Waiting, 0)];
    var a2 := a1 + [SendWork(0)];
    RunOneMore(a1, SendWork(0));
    assert [] + [Work] == [Work];
    assert Run(a2).tasks == [Task(WalSlot(key), [Work], Waiting, 0)];
    var a3 := a2 + [Receive(0, false)];
    RunOneMore(a2, Receive(0, false));
    assert [Work][1..] == [];
    var a4 := a3 + [Start(0)];
    RunOneMore(a3, Start(0));
    actions := a4 + [Finish(0, Disable)];
    RunOneMore(a4, Finish(0, Disable));
  }

  function DrainTimes(w: World, c: Chan, n: nat): World
    decreases n
  {
    if n == 0 then w else DrainTimes(Step(w, Drain(c)), c, n - 1)
  }

  /** A WAL loop that disabled itself skips the work before the shutdown, acknowledges it
      and goes back to its mailbox; it then runs the plugin again exactly if work has come
      in behind the shutdown, or nothing has and there are asynchronous runs to go on with. */
  lemma {:induction false} RunsAgainAfterAck(w: World, c: Chan, skipped: nat, sid: nat)
    requires c < |w.tasks| && w.tasks[c].slot.WalSlot? && w.tasks[c].phase == Draining
    requires skipped < |w.tasks[c].queue| && w.tasks[c].queue[skipped] == Stop(sid)
    requires forall i :: 0 <= i < skipped ==> w.tasks[c].queue[i] == Work
    ensures var rest := w.tasks[c].queue[skipped + 1..];
            var w' := DrainTimes(w, c, skipped + 1);
            && w'.log == w.log + [Acked(sid, c)]
            && c < |w'.tasks| && w'.tasks[c] == w.tasks[c].(queue := rest, phase := Waiting)
            && (Step(Step(w', Receive(c, false)), Start(c)).log == w'.log + [Started(c)] <==>
                if rest == [] then w.tasks[c].inflight > 0 else rest[0] == Work)
    decreases skipped
  {
    var w1 := Step(w, Drain(c));
    if skipped > 0 {
      assert w1.tasks[c].queue == w.tasks[c].queue[1..];
      RunsAgainAfterAck(w1, c, skipped - 1, sid);
      assert w.tasks[c].queue[1..][skipped..] == w.tasks[c].queue[skipped + 1..];
    } else {
      assert DrainTimes(w1, c, 0) == w1;
      WaitingLoopRuns(w1, c);
    }
  }

  lemma WaitingLoopRuns(w: World, c: Chan)
    requires c < |w.tasks| && w.tasks[c].phase == Waiting
    ensures var q := w.tasks[c].queue;
            Step(Step(w, Receive(c, false)), Start(c)).log == w.log + [Started(c)] <==>
            if q == [] then w.tasks[c].inflight > 0 else q[0] == Work
  {
    var q := w.tasks[c].queue;
    var w1 := Step(w, Receive(c, false));
    if q == [] {
      assert w1 == w;
    } else if q[0] == Work {
      assert w1.tasks[c].phase == Running;
    } else {
      assert w1.log == w.log + [Acked(q[0].sid, c)];
      assert w1.log[|w.log|] != Started(c);
    }
  }

  /** A stop reaches the only loop there is. */
  lemma StopTheOnlyLoop(actions: seq<Action>, key: Key) returns (more: seq<Action>)
    requires var w := Run(actions);
             && key in w.reg.wal && w.reg.wal[key] == 0 && w.sending.None? && w.stops == []
             && |w.tasks| == 1 && w.tasks[0].queue == [] && w.tasks[0].phase != Exited
    ensures var w := Run(actions);
            Run(more) == w.(tasks := [w.tasks[0].(queue := [Stop(0)])],
                            stops := [StopTask(WalSlot(key), 0, |w.log|, true, true)], log := w.log + [StopSent(0, 0)])
  {
    var w := Run(actions);
    var begun := actions + [BeginStop(WalSlot(key), true)];
    RunOneMore(actions, BeginStop(WalSlot(key), true));
    assert Run(begun) == w.(sending := Some(Sending(WalSlot(key), 0, true)));
    more := begun + [SendStop];
    RunOneMore(begun, SendStop);
    assert [] + [Stop(0)] == [Stop(0)];
    assert Run(more).tasks == [w.tasks[0].(queue := [Stop(0)])];
    assert Run(more).stops == [StopTask(WalSlot(key), 0, |w.log|, true, true)];
  }

  lemma DisabledWalLoopMayRunAgain(key: Key)
    ensures exists actions :: Run(actions).log ==
              [RegisteredAt(0, WalSlot(key)), Started(0), AutoDisabled(0), StopSent(0, 0), Acked(0, 0), Started(0)]
  {
    var a5 := SelfDisabling(key);
    var a6 := StopTheOnlyLoop(a5, key);
    var a7 := a6 + [SendWork(0)];
    RunOneMore(a6, SendWork(0));
    assert [Stop(0)] + [Work] == [Stop(0), Work];
    RunsAgainAfterAck(Run(a7), 0, 0, 0);
    assert DrainTimes(Run(a7), 0, 1) == Step(Run(a7), Drain(0));
    RunOneMore(a7, Drain(0));
    RunOneMore(a7 + [Drain(0)], Receive(0, false));
    RunOneMore(a7 + [Drain(0)] + [Receive(0, false)], Start(0));
  }

  /** The only loop has acknowledged a stop that is not over yet. */
  lemma StopAcknowledged(key: Key) returns (actions: seq<Action>)
    ensures var w := Run(actions);
            && w.log == [RegisteredAt(0, WalSlot(key)), StopSent(0, 0), Acked(0, 0)]
            && w.acked == {0} && |w.tasks| == 1 && w.sending.None?
            && w.stops == [StopTask(WalSlot(key), 0, 1, true, true)]
  {
    var a1 := [] + [Register(key, WalSpec)];
    RunOneMore([], Register(key, WalSpec));
    var a2 := StopTheOnlyLoop(a1, key);
    actions := a2 + [Receive(0, false)];
    RunOneMore(a2, Receive(0, false));
  }

  /** A stop that waits for an old loop removes the registration made in its place
      meanwhile: registration 1 goes, only loop 0 was asked and acknowledged. */
  lemma StopMayRemoveNewerRegistration(key: Key)
    ensures exists actions :: Run(actions).log ==
              [RegisteredAt(0, WalSlot(key)), StopSent(0, 0), Acked(0, 0), RegisteredAt(1, WalSlot(key)), Removed(0, 1)]
  {
    var a3 := StopAcknowledged(key);
    var a4 := a3 + [Register(key, WalSpec)];
    RunOneMore(a3, Register(key, WalSpec));
    var w4 := Run(a4);
    assert w4.reg.wal[key] == 1 && w4.stops == [StopTask(WalSlot(key), 0, 1, true, true)];
    var a5 := a4 + [EndStop(0)];
    RunOneMore(a4, EndStop(0));
    assert Run(a5).log ==
      [RegisteredAt(0, WalSlot(key)), StopSent(0, 0), Acked(0, 0), RegisteredAt(1, WalSlot(key)), Removed(0, 1)];
  }
}
