/**
 The background task that follows the catalog: it starts and stops triggers and cleans up after
 deleted databases, one event at a time.

 What the catalog answers at the moment of an event, which mailboxes are alive and
 which of them acknowledge a shutdown (rather than drop it) are part of the delivered
 event.  Writes of running plugins to their caches may come between the events.
 */
module CatalogEvents {
  import opened Basics
  import opened TriggerRegistry
  import opened PluginChannelsModel
  import PC = PluginCache

  type DbId = nat

  /** What looking up a trigger in the catalog comes to: whether it is this node's and whether
      its code can be read matters for starting it only. */
  datatype Lookup = NoDatabase | NoTrigger | Found(spec: Spec, mine: bool, readable: bool)

  datatype Event<V> =
    | CreateTrigger(db: string, trigger: string, disabled: bool, seen: Lookup)
    | EnableTrigger(db: string, trigger: string, seen: Lookup)
    | DeleteTrigger(db: string, trigger: string, force: bool, seen: Lookup)
    | DisableTrigger(db: string, trigger: string, seen: Lookup)
    | SoftDelete(id: DbId, db: string, hardDeletionFollows: bool, seenPaths: Option<seq<string>>)
    | HardDelete(id: DbId)
    | CachePut(cache: PC.CacheId, key: string, value: V, now: PC.Time)
    | OtherEvent

  datatype Delivered<V> = Delivered(event: Event<V>, open: set<Chan>, acks: set<Chan>)

  datatype Info = Info(db: string, paths: seq<string>)

  /** The request paths found, or none if the database is gone from the catalog. */
  function PathsOf<V>(e: Event<V>): seq<string>
    requires e.SoftDelete?
  {
    if e.seenPaths.Some? then e.seenPaths.value else []
  }

  /** The trigger an event starts, if it is this node's and its code can be read. */
  function Starts<V>(e: Event<V>): Option<(Key, Spec)> {
    match e
    case CreateTrigger(db, trigger, false, Found(spec, true, true)) => Some(((db, trigger), spec))
    case EnableTrigger(db, trigger, Found(spec, true, true)) => Some(((db, trigger), spec))
    case _ => None
  }

  /** The trigger an event stops. */
  function Stops<V>(e: Event<V>): Option<(Key, Spec)> {
    match e
    case DeleteTrigger(db, trigger, true, Found(spec, _, _)) => Some(((db, trigger), spec))
    case DisableTrigger(db, trigger, Found(spec, _, _)) => Some(((db, trigger), spec))
    case _ => None
  }

  /** The database whose triggers an event removes. */
  function Clears<V>(pending: map<DbId, Info>, e: Event<V>): Option<Info> {
    match e
    case SoftDelete(_, db, false, _) => Some(Info(db, PathsOf(e)))
    case HardDelete(id) => if id in pending then Some(pending[id]) else None
    case _ => None
  }

  /** A stop removes the entry only if the mailbox behind it is alive and acknowledges. */
  function Stopped(r: Registry, key: Key, spec: Spec, answering: set<Chan>): Registry {
    if Registered(r, key, spec) && MailboxOf(r, key, spec) in answering
    then TriggerRegistry.RemoveTrigger(r, key, spec) else r
  }

  function RegistryStep<V>(r: Registry, next: nat, pending: map<DbId, Info>, d: Delivered<V>): Registry {
    var start, stop, clear := Starts(d.event), Stops(d.event), Clears(pending, d.event);
    if start.Some? then Register(r, start.value.0, start.value.1, next, next)
    else if stop.Some? then Stopped(r, stop.value.0, stop.value.1, d.open * d.acks)
    else if clear.Some? then RemoveDb(r, clear.value.db, clear.value.paths)
    else r
  }

  function NextStep<V>(next: nat, e: Event<V>): nat {
    if Starts(e).Some? then next + 1 else next
  }

  // ----- what every registry reachable by registering and removing satisfies -----------

  ghost predicate Below(r: Registry, next: nat) {
    && (forall k :: k in r.wal ==> r.wal[k] < next)
    && (forall k :: k in r.schedule ==> r.schedule[k] < next)
    && (forall p :: p in r.request ==> r.request[p] < next)
  }

  ghost predicate GoodRegistry(r: Registry, next: nat) {
    OwnTokens(r) && Separate(r) && Below(r, next)
  }

  /** A registration under a new number keeps tokens and mailboxes together; one under an
      old name replaces mailbox and token together. */
  lemma RegisterKeepsGood(r: Registry, next: nat, key: Key, spec: Spec)
    requires GoodRegistry(r, next)
    ensures GoodRegistry(Register(r, key, spec, next, next), next + 1)
  {
    RegisterKeepsBelow(r, next, key, spec);
    RegisterKeepsSeparate(r, next, key, spec);
    RegisterKeepsTokens(r, next, key, spec);
  }

  lemma RegisterKeepsBelow(r: Registry, next: nat, key: Key, spec: Spec)
    requires Below(r, next)
    ensures Below(Register(r, key, spec, next, next), next + 1)
  {}

  lemma RegisterKeepsSeparate(r: Registry, next: nat, key: Key, spec: Spec)
    requires Separate(r) && Below(r, next)
    ensures Separate(Register(r, key, spec, next, next))
  {}

  lemma RegisterKeepsTokens(r: Registry, next: nat, key: Key, spec: Spec)
    requires OwnTokens(r)
    ensures OwnTokens(Register(r, key, spec, next, next))
  {}

  lemma RemoveKeepsGood(r: Registry, next: nat, key: Key, spec: Spec)
    requires GoodRegistry(r, next)
    ensures GoodRegistry(TriggerRegistry.RemoveTrigger(r, key, spec), next)
  {}

  lemma StoppedKeepsGood(r: Registry, next: nat, key: Key, spec: Spec, answering: set<Chan>)
    requires GoodRegistry(r, next)
    ensures GoodRegistry(Stopped(r, key, spec, answering), next)
  {
    RemoveKeepsGood(r, next, key, spec);
  }

  lemma RemoveDbKeepsGood(r: Registry, next: nat, db: string, paths: seq<string>)
    requires GoodRegistry(r, next)
    ensures GoodRegistry(RemoveDb(r, db, paths), next)
    ensures NoTrace(RemoveDb(r, db, paths), db, paths)
  {}

  // ----- what is sent -------------------------------------------------------------------

  /** A stop cancels a schedule trigger's own run and sends a shutdown, if it is registered
      and its mailbox is alive. */
  function StopEffects(r: Registry, key: Key, spec: Spec, open: set<Chan>): seq<Effect> {
    if !Registered(r, key, spec) then []
    else
      (if spec.ScheduleSpec? && key in r.cancels then [Cancel(r.cancels[key])] else [])
      + (if MailboxOf(r, key, spec) in open then [Shutdown(MailboxOf(r, key, spec))] else [])
  }

  /** Exactly the open mailboxes of a database and of its paths got a shutdown, schedule
      triggers after the cancellation of their run. */
  ghost predicate DbNotified(r: Registry, info: Info, open: set<Chan>, before: seq<Effect>, after: seq<Effect>) {
    && before <= after
    && (forall c :: Shutdown(c) in after[|before|..] <==> Targets(r, info.db, info.paths, c) && c in open)
    && (forall t :: Cancel(t) in after[|before|..] <==> t in TokensOf(r, info.db))
    && CancelledFirst(r, after, |before|)
  }

  /** The triggers of these databases and paths are asked to stop when the event comes. */
  function AsksDb<V>(pending: map<DbId, Info>, e: Event<V>): Option<Info> {
    match e
    case SoftDelete(_, db, _, _) => Some(Info(db, PathsOf(e)))
    case HardDelete(id) => At(pending, id)
    case _ => None
  }

  ghost predicate EffectStep<V>(r: Registry, pending: map<DbId, Info>, d: Delivered<V>, before: seq<Effect>, after: seq<Effect>) {
    var stop, db := Stops(d.event), AsksDb(pending, d.event);
    if stop.Some? then after == before + StopEffects(r, stop.value.0, stop.value.1, d.open)
    else if db.Some? then DbNotified(r, db.value, d.open, before, after)
    else after == before
  }

  function WithoutDbCaches(caches: set<PC.CacheId>, db: string): set<PC.CacheId> {
    set c | c in caches && !(c.Trigger? && c.database == db)
  }

  /** A stop takes the trigger's cache as soon as a shutdown could be sent. */
  ghost predicate CachesStep<V>(r: Registry, pending: map<DbId, Info>, d: Delivered<V>,
                                before: set<PC.CacheId>, after: set<PC.CacheId>) {
    var stop, clear := Stops(d.event), Clears(pending, d.event);
    if d.event.CachePut? then after == before + {d.event.cache}
    else if stop.Some? then
      var (key, spec) := stop.value;
      after == if Registered(r, key, spec) && MailboxOf(r, key, spec) in d.open
               then before - {PC.Trigger(key.0, key.1)} else before
    else if clear.Some? then after == WithoutDbCaches(before, clear.value.db)
    else after == before
  }

  method AddChannel(channels: PluginChannels, db: string, trigger: string, spec: Spec, c: Chan, cancel: Token)
    modifies channels
    ensures channels.View() == Register(old(channels.View()), (db, trigger), spec, c, cancel)
    ensures channels.effects == old(channels.effects)
  {
    match spec {
      case WalSpec => channels.AddWalTrigger(db, trigger, c);
      case ScheduleSpec => channels.AddScheduleTrigger(db, trigger, c, cancel);
      case RequestSpec(path) => channels.AddRequestTrigger(path, c);
    }
  }

  /** Sends the shutdown and, if it is acknowledged, removes the entry. */
  method StopChannel(channels: PluginChannels, db: string, trigger: string, spec: Spec, open: set<Chan>, acks: set<Chan>)
    returns (sent: bool)
    modifies channels
    ensures channels.View() == Stopped(old(channels.View()), (db, trigger), spec, open * acks)
    ensures channels.effects == old(channels.effects) + StopEffects(old(channels.View()), (db, trigger), spec, open)
    ensures sent <==> Registered(old(channels.View()), (db, trigger), spec) && MailboxOf(old(channels.View()), (db, trigger), spec) in open
  {
    var r := channels.SendShutdown(db, trigger, spec, open);
    sent := r.Sent?;
    if sent && r.chan in acks {
      channels.RemoveTrigger(db, trigger, spec);
    }
  }

  // ----- the manager ------------------------------------------------------------------

  class Manager<V> {
    const channels: PluginChannels
    const cache: PC.CacheStore<V>
    var softDeleted: map<DbId, Info>
    var next: nat

    ghost function Footprint(): set<object>
      reads this, cache
    {
      {this, channels} + cache.Footprint()
    }

    ghost predicate Valid()
      reads this, channels, cache, cache.Footprint()
    {
      && this !in cache.Footprint() && channels !in cache.Footprint()
      && cache.Valid()
      && GoodRegistry(channels.View(), next)
    }

    /** No registration of the database or the paths, and no cache of its triggers. */
    ghost predicate Cleared(info: Info)
      reads this, channels, cache
    {
      && NoTrace(channels.View(), info.db, info.paths)
      && (forall c :: c in cache.namespaces ==> !(c.Trigger? && c.database == info.db))
    }

    constructor (now: PC.Time)
      ensures Valid() && fresh(Footprint())
      ensures softDeleted == map[] && channels.View() == EMPTY && cache.namespaces == map[] && next == 0
      ensures channels.effects == []
    {
      channels := new PluginChannels();
      cache := new PC.CacheStore<V>(now, 10 * PC.NANOS);
      softDeleted, next := map[], 0;
    }

    method RunTrigger(db: string, trigger: string, seen: Lookup)
      requires Valid()
      modifies this`next, channels
      ensures Valid()
      ensures channels.View() == if seen.Found? && seen.mine && seen.readable
                                 then Register(old(channels.View()), (db, trigger), seen.spec, old(next), old(next))
                                 else old(channels.View())
      ensures next == if seen.Found? && seen.mine && seen.readable then old(next) + 1 else old(next)
      ensures channels.effects == old(channels.effects)
    {
      if !seen.Found? || !seen.mine || !seen.readable { return; }
      var c, cancel := next, next;
      RegisterKeepsGood(channels.View(), next, (db, trigger), seen.spec);
      AddChannel(channels, db, trigger, seen.spec, c, cancel);
      next := next + 1;
    }

    /** The entry is removed only if the loop behind it acknowledged the shutdown. */
    method StopTrigger(db: string, trigger: string, seen: Lookup, open: set<Chan>, acks: set<Chan>)
      requires Valid()
      modifies channels, cache
      ensures Valid() && cache.Footprint() <= old(cache.Footprint())
      ensures channels.View() == if seen.Found? then Stopped(old(channels.View()), (db, trigger), seen.spec, open * acks)
                                 else old(channels.View())
      // the trigger's cache goes as soon as a shutdown could be sent, acknowledged or not
      ensures cache.namespaces ==
              if seen.Found? && Registered(old(channels.View()), (db, trigger), seen.spec)
                 && MailboxOf(old(channels.View()), (db, trigger), seen.spec) in open
              then old(cache.namespaces) - {PC.Trigger(db, trigger)} else old(cache.namespaces)
      ensures channels.effects == old(channels.effects) +
              (if seen.Found? then StopEffects(old(channels.View()), (db, trigger), seen.spec, open) else [])
    {
      if !seen.Found? { return; }
      StoppedKeepsGood(channels.View(), next, (db, trigger), seen.spec, open * acks);
      var sent := StopChannel(channels, db, trigger, seen.spec, open, acks);
      if sent {
        var _ := cache.DropTriggerCache(db, trigger);
      }
    }

    /** Waits for every trigger of the database to stop and removes all of them. */
    method ClearDatabase(info: Info, open: set<Chan>)
      requires Valid()
      modifies channels, cache
      ensures Valid() && cache.Footprint() <= old(cache.Footprint())
      ensures Cleared(info)
      ensures channels.View() == RemoveDb(old(channels.View()), info.db, info.paths)
      ensures DbNotified(old(channels.View()), info, open, old(channels.effects), channels.effects)
      ensures cache.namespaces.Keys == WithoutDbCaches(old(cache.namespaces.Keys), info.db)
    {
      ghost var before := channels.View();
      var _ := channels.ShutdownAllForDb(info.db, info.paths, open);
      RemoveDbKeepsGood(before, next, info.db, info.paths);
      channels.RemoveAllForDb(info.db, info.paths);
      cache.DropAllTriggerCachesForDb(info.db);
    }

    method OnSoftDelete(d: Delivered<V>)
      requires Valid() && d.event.SoftDelete?
      modifies this`softDeleted, channels, cache
      ensures Valid() && cache.Footprint() <= old(cache.Footprint())
      ensures channels.View() == RegistryStep(old(channels.View()), next, old(softDeleted), d)
      ensures EffectStep(old(channels.View()), old(softDeleted), d, old(channels.effects), channels.effects)
      ensures softDeleted == PendingStep(old(softDeleted), d.event)
      ensures Clears(old(softDeleted), d.event).Some? ==> Cleared(Clears(old(softDeleted), d.event).value)
      ensures CachesStep(old(channels.View()), old(softDeleted), d, old(cache.namespaces.Keys), cache.namespaces.Keys)
    {
      var info := Info(d.event.db, PathsOf(d.event));
      if d.event.hardDeletionFollows {
        softDeleted := softDeleted[d.event.id := info];
        var _ := channels.ShutdownAllForDb(info.db, info.paths, d.open);
      } else {
        ClearDatabase(info, d.open);
      }
    }

    method OnHardDelete(d: Delivered<V>)
      requires Valid() && d.event.HardDelete?
      modifies this`softDeleted, channels, cache
      ensures Valid() && cache.Footprint() <= old(cache.Footprint())
      ensures channels.View() == RegistryStep(old(channels.View()), next, old(softDeleted), d)
      ensures EffectStep(old(channels.View()), old(softDeleted), d, old(channels.effects), channels.effects)
      ensures softDeleted == PendingStep(old(softDeleted), d.event)
      ensures Clears(old(softDeleted), d.event).Some? ==> Cleared(Clears(old(softDeleted), d.event).value)
      ensures CachesStep(old(channels.View()), old(softDeleted), d, old(cache.namespaces.Keys), cache.namespaces.Keys)
    {
      var removed := At(softDeleted, d.event.id);
      softDeleted := softDeleted - {d.event.id};
      if removed.Some? {
        ClearDatabase(removed.value, d.open);
      }
    }

    method OnTriggerEvent(d: Delivered<V>)
      requires Valid()
      requires !d.event.SoftDelete? && !d.event.HardDelete?
      modifies this`next, channels, cache
      ensures Valid() && cache.Footprint() <= old(cache.Footprint())
      ensures channels.View() == RegistryStep(old(channels.View()), old(next), softDeleted, d)
      ensures EffectStep(old(channels.View()), softDeleted, d, old(channels.effects), channels.effects)
      ensures next == NextStep(old(next), d.event)
      ensures !d.event.CachePut? ==>
                CachesStep(old(channels.View()), softDeleted, d, old(cache.namespaces.Keys), cache.namespaces.Keys)
    {
      if (d.event.CreateTrigger? && !d.event.disabled) || d.event.EnableTrigger? {
        RunTrigger(d.event.db, d.event.trigger, d.event.seen);
      } else if (d.event.DeleteTrigger? && d.event.force) || d.event.DisableTrigger? {
        StopTrigger(d.event.db, d.event.trigger, d.event.seen, d.open, d.acks);
      }
    }

    method OnCachePut(c: PC.CacheId, key: string, value: V, now: PC.Time)
      requires Valid()
      modifies cache.Footprint()
      ensures Valid() && fresh(cache.Footprint() - old(cache.Footprint()))
      ensures cache.namespaces.Keys == old(cache.namespaces.Keys) + {c}
    {
      cache.Put(c, key, value, None, now);
    }

    method Handle(d: Delivered<V>)
      requires Valid()
      modifies Footprint()
      ensures Valid() && fresh(Footprint() - old(Footprint()))
      // triggers: started, stopped or removed with their database
      ensures channels.View() == RegistryStep(old(channels.View()), old(next), old(softDeleted), d)
      ensures next == NextStep(old(next), d.event)
      // what is cancelled and who gets a shutdown
      ensures EffectStep(old(channels.View()), old(softDeleted), d, old(channels.effects), channels.effects)
      // pending information: added by a soft delete to be completed, taken by a hard delete
      ensures softDeleted == PendingStep(old(softDeleted), d.event)
      // trigger caches go with their triggers
      ensures CachesStep(old(channels.View()), old(softDeleted), d, old(cache.namespaces.Keys), cache.namespaces.Keys)
      // a completed deletion leaves no trace
      ensures Clears(old(softDeleted), d.event).Some? ==> Cleared(Clears(old(softDeleted), d.event).value)
    {
      if d.event.SoftDelete? {
        OnSoftDelete(d);
      } else if d.event.HardDelete? {
        OnHardDelete(d);
      } else if d.event.CachePut? {
        OnCachePut(d.event.cache, d.event.key, d.event.value, d.event.now);
      } else {
        OnTriggerEvent(d);
      }
    }
  }

  function PendingStep<V>(pending: map<DbId, Info>, e: Event<V>): map<DbId, Info> {
    match e
    case SoftDelete(id, db, true, _) => pending[id := Info(db, PathsOf(e))]
    case HardDelete(id) => pending - {id}
    case _ => pending
  }

  // ----- whole runs -------------------------------------------------------------------

  /** The information left by the last soft delete of the database that is to be
      completed, if no hard delete came since. */
  function LastPending<V>(events: seq<Delivered<V>>, id: DbId): Option<Info> {
    if events == [] then None else
    var e := events[|events| - 1].event;
    if e.HardDelete? && e.id == id then None
    else if e.SoftDelete? && e.id == id && e.hardDeletionFollows then Some(Info(e.db, PathsOf(e)))
    else LastPending(events[..|events| - 1], id)
  }

  /** The database whose clean-up the n-th event completes, if any. */
  function Completes<V>(events: seq<Delivered<V>>, n: nat): Option<Info>
    requires n < |events|
  {
    match events[n].event
    case SoftDelete(_, db, false, _) => Some(Info(db, PathsOf(events[n].event)))
    case HardDelete(id) => LastPending(events[..n], id)
    case _ => None
  }

  predicate BelongsTo(s: Slot, info: Info) {
    match s
    case RequestSlot(path) => path in info.paths
    case _ => s.key.0 == info.db
  }

  function StartCount<V>(events: seq<Delivered<V>>): nat {
    if events == [] then 0 else NextStep(StartCount(events[..|events| - 1]), events[|events| - 1].event)
  }

  /** The mailbox kept in one slot, from the events that concern that slot: the last start
      there, until a stop that is acknowledged or the end of its database. */
  function LastMailbox<V>(events: seq<Delivered<V>>, s: Slot): Option<Chan> {
    if events == [] then None
    else
      var n := |events| - 1;
      var d, before := events[n], LastMailbox(events[..n], s);
      var start, stop, clear := Starts(d.event), Stops(d.event), Completes(events, n);
      if start.Some? && SlotOf(start.value.0, start.value.1) == s then Some(StartCount(events[..n]))
      else if stop.Some? && StopSlotOf(stop.value.0, stop.value.1) == s && before.Some? && before.value in d.open * d.acks then None
      else if clear.Some? && BelongsTo(s, clear.value) then None
      else before
  }

  /** Stopping a trigger that was just registered, and acknowledges, takes its registration
      away if and only if it is no request trigger, or one whose path is its name. */
  lemma StopFindsOwnSlot(r: Registry, key: Key, spec: Spec, c: Chan, answering: set<Chan>)
    requires c in answering
    ensures MailboxAt(Stopped(Register(r, key, spec, c, c), key, spec, answering), SlotOf(key, spec)).None? <==>
            (spec.RequestSpec? ==> spec.path == key.1)
  {
    StartedMailbox(r, key, spec, c, SlotOf(key, spec));
    StoppedMailbox(Register(r, key, spec, c, c), key, spec, answering, SlotOf(key, spec));
  }

  lemma StartedMailbox(r: Registry, key: Key, spec: Spec, c: Chan, s: Slot)
    ensures MailboxAt(Register(r, key, spec, c, c), s) == if SlotOf(key, spec) == s then Some(c) else MailboxAt(r, s)
  {}

  lemma StoppedMailbox(r: Registry, key: Key, spec: Spec, answering: set<Chan>, s: Slot)
    ensures MailboxAt(Stopped(r, key, spec, answering), s) ==
            if StopSlotOf(key, spec) == s && MailboxAt(r, s).Some? && MailboxAt(r, s).value in answering then None
            else MailboxAt(r, s)
  {}

  lemma ClearedMailbox(r: Registry, info: Info, s: Slot)
    ensures MailboxAt(RemoveDb(r, info.db, info.paths), s) == if BelongsTo(s, info) then None else MailboxAt(r, s)
  {}

  /** The registry holds in every slot the mailbox that its own events leave there. */
  ghost predicate ExactlyRegistered<V>(events: seq<Delivered<V>>, r: Registry) {
    forall s :: MailboxAt(r, s) == LastMailbox(events, s)
  }

  lemma RegisteredMore<V>(events: seq<Delivered<V>>, r: Registry, pending: map<DbId, Info>, n: nat)
    requires n < |events| && ExactlyRegistered(events[..n], r) && ExactlyPending(events[..n], pending)
    ensures ExactlyRegistered(events[..n + 1], RegistryStep(r, StartCount(events[..n]), pending, events[n]))
  {
    var d := events[n];
    var more := events[..n + 1];
    assert more[..n] == events[..n];
    var start, stop, clear := Starts(d.event), Stops(d.event), Clears(pending, d.event);
    assert clear == Completes(more, n);
    var r' := RegistryStep(r, StartCount(events[..n]), pending, d);
    forall s: Slot ensures MailboxAt(r', s) == LastMailbox(more, s) {
      assert MailboxAt(r, s) == LastMailbox(events[..n], s);
      if start.Some? {
        StartedMailbox(r, start.value.0, start.value.1, StartCount(events[..n]), s);
      } else if stop.Some? {
        StoppedMailbox(r, stop.value.0, stop.value.1, d.open * d.acks, s);
      } else if clear.Some? {
        ClearedMailbox(r, clear.value, s);
      }
    }
  }

  /** The database whose triggers the n-th event asks to stop, if any. */
  function AsksDbAt<V>(events: seq<Delivered<V>>, n: nat): Option<Info>
    requires n < |events|
  {
    match events[n].event
    case SoftDelete(_, db, _, _) => Some(Info(db, PathsOf(events[n].event)))
    case HardDelete(id) => LastPending(events[..n], id)
    case _ => None
  }

  /** The n-th event asks what is kept in the slot to stop. */
  predicate Asked<V>(events: seq<Delivered<V>>, n: nat, s: Slot)
    requires n < |events|
  {
    var stop, db := Stops(events[n].event), AsksDbAt(events, n);
    || (stop.Some? && StopSlotOf(stop.value.0, stop.value.1) == s)
    || (db.Some? && BelongsTo(s, db.value))
  }

  /** Some slot that is asked to stop holds the mailbox. */
  ghost predicate AskedMailbox<V>(events: seq<Delivered<V>>, n: nat, c: Chan)
    requires n < |events|
  {
    exists s :: Asked(events, n, s) && LastMailbox(events[..n], s) == Some(c)
  }

  ghost predicate IsSchedule<V>(events: seq<Delivered<V>>, c: Chan) {
    exists k :: LastMailbox(events, ScheduleSlot(k)) == Some(c)
  }

  /** Some schedule slot that is asked to stop holds the mailbox, or token, of this number. */
  ghost predicate AskedSchedule<V>(events: seq<Delivered<V>>, n: nat, t: Token)
    requires n < |events|
  {
    exists k :: Asked(events, n, ScheduleSlot(k)) && LastMailbox(events[..n], ScheduleSlot(k)) == Some(t)
  }

  /** What the n-th event makes the manager send: a shutdown to exactly the open mailboxes
      asked to stop, and to that of a schedule trigger right after the cancellation of the
      run of the same registration.  Exactly the schedule triggers asked to stop have their
      runs cancelled, whether or not their mailboxes are open. */
  ghost predicate Sent<V>(events: seq<Delivered<V>>, n: nat, sent: seq<Effect>)
    requires n < |events|
  {
    && (forall c :: Shutdown(c) in sent <==> c in events[n].open && AskedMailbox(events, n, c))
    && (forall t :: Cancel(t) in sent <==> AskedSchedule(events, n, t))
    && (forall i :: 0 <= i < |sent| && sent[i].Shutdown? && IsSchedule(events[..n], sent[i].chan) ==>
          i > 0 && sent[i - 1] == Cancel(sent[i].chan))
  }

  /** The targets of a database are the mailboxes in its slots. */
  lemma TargetsInSlots(r: Registry, info: Info, c: Chan)
    ensures Targets(r, info.db, info.paths, c) <==> exists s :: BelongsTo(s, info) && MailboxAt(r, s) == Some(c)
  {
    if Targets(r, info.db, info.paths, c) {
      if k :| k in r.wal && k.0 == info.db && r.wal[k] == c {
        assert BelongsTo(WalSlot(k), info) && MailboxAt(r, WalSlot(k)) == Some(c);
      } else if k :| k in r.schedule && k.0 == info.db && r.schedule[k] == c {
        assert BelongsTo(ScheduleSlot(k), info) && MailboxAt(r, ScheduleSlot(k)) == Some(c);
      } else {
        var p :| p in info.paths && p in r.request && r.request[p] == c;
        assert BelongsTo(RequestSlot(p), info) && MailboxAt(r, RequestSlot(p)) == Some(c);
      }
    }
  }

  lemma TokensInSlots(r: Registry, info: Info, t: Token)
    requires OwnTokens(r)
    ensures t in TokensOf(r, info.db) <==>
            exists k :: BelongsTo(ScheduleSlot(k), info) && MailboxAt(r, ScheduleSlot(k)) == Some(t)
  {
    if k :| BelongsTo(ScheduleSlot(k), info) && MailboxAt(r, ScheduleSlot(k)) == Some(t) {
      assert k in r.schedule && k in r.cancels && r.cancels[k] == t;
    }
    if t in TokensOf(r, info.db) {
      var k :| k in r.schedule && k.0 == info.db && k in r.cancels && r.cancels[k] == t;
      assert BelongsTo(ScheduleSlot(k), info) && MailboxAt(r, ScheduleSlot(k)) == Some(t);
    }
  }

  lemma StopIsSent<V>(events: seq<Delivered<V>>, n: nat, r: Registry, key: Key, spec: Spec)
    requires n < |events| && ExactlyRegistered(events[..n], r) && OwnTokens(r) && Separate(r)
    requires Stops(events[n].event) == Some((key, spec))
    ensures Sent(events, n, StopEffects(r, key, spec, events[n].open))
  {
    var sent := StopEffects(r, key, spec, events[n].open);
    var slot := StopSlotOf(key, spec);
    assert MailboxAt(r, slot) == LastMailbox(events[..n], slot);
    assert Registered(r, key, spec) <==> MailboxAt(r, slot).Some?;
    assert Asked(events, n, slot);
    assert forall s :: Asked(events, n, s) ==> s == slot;
    forall t: Token ensures Cancel(t) in sent <==> AskedSchedule(events, n, t) {
      if AskedSchedule(events, n, t) {
        var k :| Asked(events, n, ScheduleSlot(k)) && LastMailbox(events[..n], ScheduleSlot(k)) == Some(t);
        assert MailboxAt(r, ScheduleSlot(k)) == Some(t);
      }
    }
    forall k, c | LastMailbox(events[..n], ScheduleSlot(k)) == Some(c)
      ensures k in r.schedule && r.schedule[k] == c && k in r.cancels && r.cancels[k] == c
    {
      assert MailboxAt(r, ScheduleSlot(k)) == Some(c);
    }
  }

  lemma DbNoticeIsSent<V>(events: seq<Delivered<V>>, n: nat, r: Registry, info: Info, before: seq<Effect>, after: seq<Effect>)
    requires n < |events| && ExactlyRegistered(events[..n], r) && OwnTokens(r)
    requires Stops(events[n].event).None? && AsksDbAt(events, n) == Some(info)
    requires DbNotified(r, info, events[n].open, before, after)
    ensures Sent(events, n, after[|before|..])
  {
    var sent := after[|before|..];
    forall c: Chan ensures Shutdown(c) in sent <==> c in events[n].open && AskedMailbox(events, n, c) {
      TargetsInSlots(r, info, c);
      assert forall s :: MailboxAt(r, s) == LastMailbox(events[..n], s);
      assert forall s :: Asked(events, n, s) <==> BelongsTo(s, info);
    }
    forall t: Token ensures Cancel(t) in sent <==> AskedSchedule(events, n, t) {
      TokensInSlots(r, info, t);
      assert forall k :: MailboxAt(r, ScheduleSlot(k)) == LastMailbox(events[..n], ScheduleSlot(k));
      assert forall s :: Asked(events, n, s) <==> BelongsTo(s, info);
    }
    forall i | 0 <= i < |sent| && sent[i].Shutdown? && IsSchedule(events[..n], sent[i].chan)
      ensures i > 0 && sent[i - 1] == Cancel(sent[i].chan)
    {
      var k :| LastMailbox(events[..n], ScheduleSlot(k)) == Some(sent[i].chan);
      assert MailboxAt(r, ScheduleSlot(k)) == Some(sent[i].chan);
      assert after[|before| + i] == Shutdown(r.schedule[k]);
    }
  }

  lemma NothingIsSent<V>(events: seq<Delivered<V>>, n: nat)
    requires n < |events| && Stops(events[n].event).None? && AsksDbAt(events, n).None?
    ensures Sent(events, n, [])
  {}

  lemma EffectsAreSent<V>(events: seq<Delivered<V>>, n: nat, r: Registry, pending: map<DbId, Info>, before: seq<Effect>, after: seq<Effect>)
    requires n < |events| && ExactlyRegistered(events[..n], r) && ExactlyPending(events[..n], pending)
    requires OwnTokens(r) && Separate(r) && EffectStep(r, pending, events[n], before, after)
    ensures before <= after && Sent(events, n, after[|before|..])
  {
    var stop, db := Stops(events[n].event), AsksDb(pending, events[n].event);
    assert db == AsksDbAt(events, n);
    if stop.Some? {
      StopIsSent(events, n, r, stop.value.0, stop.value.1);
      assert after[|before|..] == StopEffects(r, stop.value.0, stop.value.1, events[n].open);
    } else if db.Some? {
      DbNoticeIsSent(events, n, r, db.value, before, after);
    } else {
      assert after[|before|..] == [];
      NothingIsSent(events, n);
    }
  }

  datatype Snapshot = Snapshot(registry: Registry, caches: set<PC.CacheId>, sent: seq<Effect>, pending: map<DbId, Info>)

  ghost predicate ClearedIn(s: Snapshot, info: Info) {
    && NoTrace(s.registry, info.db, info.paths)
    && (forall c :: c in s.caches ==> !(c.Trigger? && c.database == info.db))
  }

  /** The n-th snapshot, taken after the n-th event. */
  ghost predicate Explained<V>(events: seq<Delivered<V>>, n: nat, s: Snapshot)
    requires n < |events|
  {
    && (Completes(events, n).Some? ==> ClearedIn(s, Completes(events, n).value))
    && OwnTokens(s.registry)
    && Sent(events, n, s.sent)
    && ExactlyPending(events[..n + 1], s.pending)
    && ExactlyRegistered(events[..n + 1], s.registry)
  }

  /** What the state is before the n-th event. */
  function Before(snapshots: seq<Snapshot>, n: nat): Snapshot
    requires n <= |snapshots|
  {
    if n == 0 then Snapshot(EMPTY, {}, [], map[]) else snapshots[n - 1]
  }

  /** What the n-th event does to the caches that there are. */
  ghost predicate CachesExplained<V>(events: seq<Delivered<V>>, n: nat, before: set<PC.CacheId>, after: set<PC.CacheId>)
    requires n < |events|
  {
    var d, stop, clear := events[n], Stops(events[n].event), Completes(events, n);
    if d.event.CachePut? then after == before + {d.event.cache}
    else if stop.Some? then
      var (key, spec) := stop.value;
      var c := LastMailbox(events[..n], StopSlotOf(key, spec));
      after == if c.Some? && c.value in d.open then before - {PC.Trigger(key.0, key.1)} else before
    else if clear.Some? then after == WithoutDbCaches(before, clear.value.db)
    else after == before
  }

  lemma CachesAreExplained<V>(events: seq<Delivered<V>>, n: nat, r: Registry, pending: map<DbId, Info>,
                              before: set<PC.CacheId>, after: set<PC.CacheId>)
    requires n < |events| && ExactlyRegistered(events[..n], r) && ExactlyPending(events[..n], pending)
    requires CachesStep(r, pending, events[n], before, after)
    ensures CachesExplained(events, n, before, after)
  {
    assert Clears(pending, events[n].event) == Completes(events, n);
    var stop := Stops(events[n].event);
    if stop.Some? {
      var (key, spec) := stop.value;
      assert MailboxAt(r, StopSlotOf(key, spec)) == LastMailbox(events[..n], StopSlotOf(key, spec));
      assert Registered(r, key, spec) <==> MailboxAt(r, StopSlotOf(key, spec)).Some?;
    }
  }

  /** The map holds exactly the databases whose deletion is still to be completed. */
  ghost predicate ExactlyPending<V>(events: seq<Delivered<V>>, pending: map<DbId, Info>) {
    forall id :: (id in pending <==> LastPending(events, id).Some?) &&
                 (id in pending ==> pending[id] == LastPending(events, id).value)
  }

  lemma PendingMore<V>(events: seq<Delivered<V>>, pending: map<DbId, Info>, n: nat)
    requires n < |events| && ExactlyPending(events[..n], pending)
    ensures ExactlyPending(events[..n + 1], PendingStep(pending, events[n].event))
  {
    assert events[..n + 1][..n] == events[..n];
  }

  // ----- databases that are created again ----------------------------------------------------

  predicate StartsIn<V>(e: Event<V>, s: Slot) {
    Starts(e).Some? && SlotOf(Starts(e).value.0, Starts(e).value.1) == s
  }

  /** A mailbox in a slot is that of the last start there. */
  lemma {:induction false} LastStart<V>(events: seq<Delivered<V>>, s: Slot, c: Chan) returns (k: nat)
    requires LastMailbox(events, s) == Some(c)
    ensures k < |events| && StartsIn(events[k].event, s) && c == StartCount(events[..k])
    ensures forall j :: k < j < |events| ==> !StartsIn(events[j].event, s)
  {
    var n := |events| - 1;
    if StartsIn(events[n].event, s) {
      k := n;
    } else {
      k := LastStart(events[..n], s, c);
      assert events[..n][..k] == events[..k];
    }
  }

  lemma {:induction false} StartCountGrows<V>(events: seq<Delivered<V>>, i: nat, j: nat)
    requires i <= j <= |events|
    ensures StartCount(events[..i]) <= StartCount(events[..j])
  {
    if i < j {
      StartCountGrows(events, i, j - 1);
      assert events[..j][..j - 1] == events[..j - 1];
    }
  }

  /** A mailbox was registered before the m-th event exactly if nothing started in its slot
      since. */
  lemma RegisteredBefore<V>(events: seq<Delivered<V>>, m: nat, n: nat, s: Slot, c: Chan)
    requires m <= n <= |events| && LastMailbox(events[..n], s) == Some(c)
    ensures c < StartCount(events[..m]) <==> forall j :: m <= j < n ==> !StartsIn(events[j].event, s)
  {
    var k := LastStart(events[..n], s, c);
    assert events[..n][..k] == events[..k];
    forall j | k < j < n ensures !StartsIn(events[j].event, s) {
      assert events[..n][j] == events[j];
    }
    if k < m {
      assert events[..k + 1][..k] == events[..k];
      StartCountGrows(events, k + 1, m);
    } else {
      StartCountGrows(events, m, k);
      assert StartsIn(events[k].event, s);
    }
  }

  /** Registrations go by name, so a hard delete empties the slots of the recorded database
      whoever is in them.  What it takes from a slot was there when the m-th event came, say
      the soft delete, if and only if nothing started in the slot since. */
  lemma HardDeleteTakes<V>(events: seq<Delivered<V>>, m: nat, n: nat, info: Info, s: Slot, c: Chan)
    requires m < n < |events| && events[n].event.HardDelete?
    requires LastPending(events[..n], events[n].event.id) == Some(info) && BelongsTo(s, info)
    requires LastMailbox(events[..n], s) == Some(c)
    ensures LastMailbox(events[..n + 1], s).None?
    ensures c < StartCount(events[..m]) <==> forall j :: m <= j < n ==> !StartsIn(events[j].event, s)
  {
    RegisteredBefore(events, m, n, s, c);
    assert events[..n + 1][..n] == events[..n];
    assert Completes(events[..n + 1], n) == Some(info);
  }

  /** So a database created again under the name of a soft-deleted one loses its trigger when
      the old one is hard-deleted. */
  lemma NewDatabaseLosesItsTrigger<V>(id: DbId, db: string, trigger: string, events: seq<Delivered<V>>)
    requires |events| == 3
    requires events[0].event == SoftDelete(id, db, true, None)
    requires events[1].event == CreateTrigger(db, trigger, false, Found(WalSpec, true, true))
    requires events[2].event == HardDelete(id)
    ensures LastMailbox(events[..2], WalSlot((db, trigger))) == Some(0)
    ensures LastMailbox(events[..3], WalSlot((db, trigger))).None?
  {
    assert events[..2][..1] == events[..1] && events[..1][..0] == events[..0] == [];
    assert StartCount(events[..1]) == 0;
    assert Starts(events[1].event) == Some(((db, trigger), WalSpec));
    assert LastMailbox(events[..2], WalSlot((db, trigger))) == Some(0);
    assert LastPending(events[..1], id) == Some(Info(db, []));
    assert LastPending(events[..2], id) == Some(Info(db, []));
    HardDeleteTakes(events, 0, 2, Info(db, []), WalSlot((db, trigger)), 0);
  }

  /** The manager's state is the one its events determine. */
  ghost predicate Follows<V>(m: Manager<V>, events: seq<Delivered<V>>)
    reads m, m.channels
  {
    && ExactlyPending(events, m.softDeleted)
    && ExactlyRegistered(events, m.channels.View())
    && m.next == StartCount(events)
  }

  method Begin<V>(now: PC.Time) returns (m: Manager<V>)
    ensures m.Valid() && fresh(m.Footprint()) && Follows(m, []) && m.cache.namespaces == map[]
  {
    m := new Manager<V>(now);
  }

  method HandleNext<V>(m: Manager<V>, events: seq<Delivered<V>>, n: nat, ghost snapshots: seq<Snapshot>) returns (s: Snapshot)
    requires m.Valid() && n < |events| && Follows(m, events[..n])
    requires |snapshots| == n && AllExplained(events, snapshots) && AllCachesExplained(events, snapshots)
    requires m.cache.namespaces.Keys == Before(snapshots, n).caches
    modifies m.Footprint()
    ensures m.Valid() && fresh(m.Footprint() - old(m.Footprint())) && Follows(m, events[..n + 1])
    ensures m.cache.namespaces.Keys == s.caches
    ensures AllExplained(events, snapshots + [s]) && AllCachesExplained(events, snapshots + [s])
  {
    assert events[..n + 1][..n] == events[..n];
    PendingMore(events, m.softDeleted, n);
    RegisteredMore(events, m.channels.View(), m.softDeleted, n);
    assert Clears(m.softDeleted, events[n].event) == Completes(events, n);
    var sofar := |m.channels.effects|;
    ghost var r, pending, before, caches := m.channels.View(), m.softDeleted, m.channels.effects, m.cache.namespaces.Keys;
    m.Handle(events[n]);
    EffectsAreSent(events, n, r, pending, before, m.channels.effects);
    s := Snapshot(Registry(m.channels.walTriggers, m.channels.scheduleTriggers, m.channels.scheduleCancels,
                           m.channels.requestTriggers),
                  m.cache.namespaces.Keys, m.channels.effects[sofar..], m.softDeleted);
    CachesAreExplained(events, n, r, pending, caches, s.caches);
    ExplainedMore(events, snapshots, s);
    CachesExplainedMore(events, snapshots, s);
  }

  ghost predicate AllExplained<V>(events: seq<Delivered<V>>, snapshots: seq<Snapshot>) {
    |snapshots| <= |events| && forall n :: 0 <= n < |snapshots| ==> Explained(events, n, snapshots[n])
  }

  ghost predicate AllCachesExplained<V>(events: seq<Delivered<V>>, snapshots: seq<Snapshot>) {
    && |snapshots| <= |events|
    && forall n :: 0 <= n < |snapshots| ==> CachesExplained(events, n, Before(snapshots, n).caches, snapshots[n].caches)
  }

  lemma CachesExplainedMore<V>(events: seq<Delivered<V>>, snapshots: seq<Snapshot>, s: Snapshot)
    requires AllCachesExplained(events, snapshots) && |snapshots| < |events|
    requires CachesExplained(events, |snapshots|, Before(snapshots, |snapshots|).caches, s.caches)
    ensures AllCachesExplained(events, snapshots + [s])
  {
    var more := snapshots + [s];
    forall n | 0 <= n < |more| ensures CachesExplained(events, n, Before(more, n).caches, more[n].caches) {
      assert Before(more, n) == Before(snapshots, n);
      if n < |snapshots| {
        assert more[n] == snapshots[n];
      }
    }
  }

  lemma ExplainedMore<V>(events: seq<Delivered<V>>, snapshots: seq<Snapshot>, s: Snapshot)
    requires AllExplained(events, snapshots) && |snapshots| < |events| && Explained(events, |snapshots|, s)
    ensures AllExplained(events, snapshots + [s])
  {
    var more := snapshots + [s];
    forall n | 0 <= n < |more| ensures Explained(events, n, more[n]) {
      if n < |snapshots| {
        assert more[n] == snapshots[n];
      }
    }
  }

  // ----- each event, read off its fields ------------------------------------------------------

  /** Nothing is sent and nothing changes. */
  ghost predicate Idle(b: Snapshot, s: Snapshot) {
    s.sent == [] && s.caches == b.caches && forall x :: MailboxAt(s.registry, x) == MailboxAt(b.registry, x)
  }

  ghost predicate NeverUsed(snapshots: seq<Snapshot>, n: nat, c: Chan)
    requires n <= |snapshots|
  {
    forall m, x :: 0 <= m < n ==> MailboxAt(snapshots[m].registry, x) != Some(c)
  }

  /** The slot holds a mailbox that no slot has held before, and no other slot changes. */
  ghost predicate StartedAt(snapshots: seq<Snapshot>, n: nat, slot: Slot)
    requires n < |snapshots|
  {
    var b, s := Before(snapshots, n), snapshots[n];
    && MailboxAt(s.registry, slot).Some? && NeverUsed(snapshots, n, MailboxAt(s.registry, slot).value)
    && (forall x :: x != slot ==> MailboxAt(s.registry, x) == MailboxAt(b.registry, x))
    && s.sent == [] && s.caches == b.caches
  }

  /** The mailbox in the slot, if it is open, gets a shutdown and leaves the slot if it
      acknowledges; a schedule trigger's run is cancelled in any case. */
  ghost predicate StoppedAt<V>(d: Delivered<V>, b: Snapshot, s: Snapshot, slot: Slot, cache: PC.CacheId) {
    var held := MailboxAt(b.registry, slot);
    && (forall x :: x != slot ==> MailboxAt(s.registry, x) == MailboxAt(b.registry, x))
    && MailboxAt(s.registry, slot) ==
         (if held.Some? && held.value in d.open && held.value in d.acks then None else held)
    && (forall c: Chan :: Shutdown(c) in s.sent <==> held == Some(c) && c in d.open)
    && (forall t: Token :: Cancel(t) in s.sent <==> held == Some(t) && slot.ScheduleSlot?)
    && s.caches == (if held.Some? && held.value in d.open then b.caches - {cache} else b.caches)
  }

  /** The slot is of the database or of one of the paths. */
  predicate Within(x: Slot, db: string, paths: seq<string>) {
    if x.RequestSlot? then x.path in paths else x.key.0 == db
  }

  /** Exactly the open mailboxes of the database and the paths get a shutdown, and the runs of
      its schedule triggers are cancelled; if it is `gone`, its slots and caches go. */
  ghost predicate DbStopped<V>(d: Delivered<V>, b: Snapshot, s: Snapshot, db: string, paths: seq<string>, gone: bool) {
    && (forall x :: MailboxAt(s.registry, x) == if gone && Within(x, db, paths) then None else MailboxAt(b.registry, x))
    && (forall c: Chan :: Shutdown(c) in s.sent <==>
          c in d.open && exists x :: Within(x, db, paths) && MailboxAt(b.registry, x) == Some(c))
    && (forall t: Token :: Cancel(t) in s.sent <==>
          exists k: Key :: k.0 == db && MailboxAt(b.registry, ScheduleSlot(k)) == Some(t))
    && (forall c :: c in s.caches <==> c in b.caches && !(gone && c.Trigger? && c.database == db))
  }

  /** The m-th event is the last soft delete of the database before the n-th event that is to
      be completed, and was not completed since. */
  ghost predicate IsLastSoftDelete<V>(events: seq<Delivered<V>>, m: nat, n: nat, id: DbId)
    requires n <= |events|
  {
    && m < n && events[m].event.SoftDelete? && events[m].event.id == id && events[m].event.hardDeletionFollows
    && forall i :: m < i < n ==>
         var e := events[i].event;
         !(e.HardDelete? && e.id == id) && !(e.SoftDelete? && e.id == id && e.hardDeletionFollows)
  }

  /** What the n-th event did, from its own fields. */
  ghost predicate Outright<V>(events: seq<Delivered<V>>, snapshots: seq<Snapshot>, n: nat)
    requires n < |snapshots| <= |events|
  {
    var d, b, s := events[n], Before(snapshots, n), snapshots[n];
    match d.event
    case CreateTrigger(db, trigger, disabled, seen) =>
      if !disabled && seen.Found? && seen.mine && seen.readable then StartedAt(snapshots, n, SlotOf((db, trigger), seen.spec))
      else Idle(b, s)
    case EnableTrigger(db, trigger, seen) =>
      if seen.Found? && seen.mine && seen.readable then StartedAt(snapshots, n, SlotOf((db, trigger), seen.spec))
      else Idle(b, s)
    case DeleteTrigger(db, trigger, force, seen) =>
      if force && seen.Found? then StoppedAt(d, b, s, StopSlotOf((db, trigger), seen.spec), PC.Trigger(db, trigger))
      else Idle(b, s)
    case DisableTrigger(db, trigger, seen) =>
      if seen.Found? then StoppedAt(d, b, s, StopSlotOf((db, trigger), seen.spec), PC.Trigger(db, trigger))
      else Idle(b, s)
    case SoftDelete(_, db, hardDeletionFollows, seenPaths) =>
      DbStopped(d, b, s, db, if seenPaths.Some? then seenPaths.value else [], !hardDeletionFollows)
    case HardDelete(id) =>
      && (forall m: nat :: IsLastSoftDelete(events, m, n, id) ==>
            var e := events[m].event;
            DbStopped(d, b, s, e.db, if e.seenPaths.Some? then e.seenPaths.value else [], true))
      && ((forall m: nat :: !IsLastSoftDelete(events, m, n, id)) ==> Idle(b, s))
    case CachePut(cache, _, _, _) => Idle(b.(caches := b.caches + {cache}), s)
    case OtherEvent => Idle(b, s)
  }

  lemma {:induction false} SoftDeleteStays<V>(events: seq<Delivered<V>>, m: nat, n: nat, id: DbId)
    requires n <= |events| && IsLastSoftDelete(events, m, n, id)
    ensures LastPending(events[..n], id) == Some(Info(events[m].event.db, PathsOf(events[m].event)))
    decreases n
  {
    assert events[..n][..n - 1] == events[..n - 1];
    if m < n - 1 { SoftDeleteStays(events, m, n - 1, id); }
  }

  lemma {:induction false} PendingWasLeft<V>(events: seq<Delivered<V>>, n: nat, id: DbId) returns (m: nat)
    requires n <= |events| && LastPending(events[..n], id).Some?
    ensures IsLastSoftDelete(events, m, n, id)
    decreases n
  {
    assert events[..n][..n - 1] == events[..n - 1];
    var e := events[n - 1].event;
    if e.SoftDelete? && e.id == id && e.hardDeletionFollows {
      m := n - 1;
    } else {
      m := PendingWasLeft(events, n - 1, id);
    }
  }

  lemma RegisteredBeforeAndAfter<V>(events: seq<Delivered<V>>, snapshots: seq<Snapshot>, n: nat)
    requires n < |snapshots| && AllExplained(events, snapshots)
    ensures ExactlyRegistered(events[..n], Before(snapshots, n).registry)
    ensures ExactlyRegistered(events[..n + 1], snapshots[n].registry) && Sent(events, n, snapshots[n].sent)
  {
    assert Explained(events, n, snapshots[n]);
    if n > 0 {
      assert Explained(events, n - 1, snapshots[n - 1]);
    } else {
      assert events[..0] == [];
    }
  }

  /** No slot is asked to stop, started or cleared. */
  lemma IdleAt<V>(events: seq<Delivered<V>>, snapshots: seq<Snapshot>, n: nat)
    requires n < |snapshots| && AllExplained(events, snapshots)
    requires Starts(events[n].event).None? && Stops(events[n].event).None?
    requires AsksDbAt(events, n).None?
    ensures forall x :: MailboxAt(snapshots[n].registry, x) == MailboxAt(Before(snapshots, n).registry, x)
    ensures snapshots[n].sent == []
  {
    RegisteredBeforeAndAfter(events, snapshots, n);
    assert events[..n + 1][..n] == events[..n];
    assert Completes(events[..n + 1], n).None?;
    forall x: Slot ensures MailboxAt(snapshots[n].registry, x) == MailboxAt(Before(snapshots, n).registry, x) {
      assert MailboxAt(snapshots[n].registry, x) == LastMailbox(events[..n + 1], x);
    }
    NothingSent(events, snapshots, n);
  }

  lemma SomeEffect(sent: seq<Effect>)
    requires sent != []
    ensures (exists c: Chan :: Shutdown(c) in sent) || (exists t: Token :: Cancel(t) in sent)
  {
    assert sent[0] in sent;
    if sent[0].Shutdown? {
      assert Shutdown(sent[0].chan) in sent;
    } else {
      assert Cancel(sent[0].token) in sent;
    }
  }

  lemma NothingSent<V>(events: seq<Delivered<V>>, snapshots: seq<Snapshot>, n: nat)
    requires n < |snapshots| && AllExplained(events, snapshots)
    requires AsksDbAt(events, n).None? && Stops(events[n].event).None?
    ensures snapshots[n].sent == []
  {
    RegisteredBeforeAndAfter(events, snapshots, n);
    assert forall x :: !Asked(events, n, x);
    if snapshots[n].sent != [] { SomeEffect(snapshots[n].sent); }
  }

  /** What a start does to each slot. */
  lemma StartMoves<V>(events: seq<Delivered<V>>, snapshots: seq<Snapshot>, n: nat, slot: Slot, x: Slot)
    requires n < |snapshots| && AllExplained(events, snapshots)
    requires StartsIn(events[n].event, slot) && Stops(events[n].event).None? && Completes(events, n).None?
    ensures MailboxAt(snapshots[n].registry, x) ==
            if x == slot then Some(StartCount(events[..n])) else MailboxAt(Before(snapshots, n).registry, x)
  {
    RegisteredBeforeAndAfter(events, snapshots, n);
    assert events[..n + 1][..n] == events[..n];
    assert Completes(events[..n + 1], n).None?;
    assert MailboxAt(snapshots[n].registry, x) == LastMailbox(events[..n + 1], x);
    assert MailboxAt(Before(snapshots, n).registry, x) == LastMailbox(events[..n], x);
  }

  lemma NextIsNeverUsed<V>(events: seq<Delivered<V>>, snapshots: seq<Snapshot>, n: nat)
    requires n < |snapshots| && AllExplained(events, snapshots)
    ensures NeverUsed(snapshots, n, StartCount(events[..n]))
  {
    forall m, x | 0 <= m < n ensures MailboxAt(snapshots[m].registry, x) != Some(StartCount(events[..n])) {
      RegisteredBeforeAndAfter(events, snapshots, m);
      assert MailboxAt(snapshots[m].registry, x) == LastMailbox(events[..m + 1], x);
      if LastMailbox(events[..m + 1], x).Some? {
        MailboxesAreCounted(events, m + 1, n, x);
      }
    }
  }

  lemma StartIsOutright<V>(events: seq<Delivered<V>>, snapshots: seq<Snapshot>, n: nat, slot: Slot)
    requires n < |snapshots| && AllExplained(events, snapshots) && AllCachesExplained(events, snapshots)
    requires StartsIn(events[n].event, slot)
    ensures StartedAt(snapshots, n, slot)
  {
    forall x: Slot
      ensures MailboxAt(snapshots[n].registry, x) ==
              if x == slot then Some(StartCount(events[..n])) else MailboxAt(Before(snapshots, n).registry, x)
    {
      StartMoves(events, snapshots, n, slot, x);
    }
    NextIsNeverUsed(events, snapshots, n);
    NothingSent(events, snapshots, n);
    assert CachesExplained(events, n, Before(snapshots, n).caches, snapshots[n].caches);
  }

  /** Mailboxes are numbered in the order of the starts. */
  lemma MailboxesAreCounted<V>(events: seq<Delivered<V>>, m: nat, n: nat, x: Slot)
    requires m <= n <= |events| && LastMailbox(events[..m], x).Some?
    ensures LastMailbox(events[..m], x).value < StartCount(events[..n])
  {
    var c := LastMailbox(events[..m], x).value;
    var k := LastStart(events[..m], x, c);
    assert events[..m][..k] == events[..k] && events[..k + 1][..k] == events[..k];
    StartCountGrows(events, k + 1, n);
  }

  /** What a stop does to each slot. */
  lemma StopMoves<V>(events: seq<Delivered<V>>, snapshots: seq<Snapshot>, n: nat, slot: Slot, x: Slot)
    requires n < |snapshots| && AllExplained(events, snapshots) && Starts(events[n].event).None?
    requires Stops(events[n].event).Some? && StopSlotOf(Stops(events[n].event).value.0, Stops(events[n].event).value.1) == slot
    ensures var held := MailboxAt(Before(snapshots, n).registry, x);
            MailboxAt(snapshots[n].registry, x) ==
            if x == slot && held.Some? && held.value in events[n].open && held.value in events[n].acks then None else held
  {
    RegisteredBeforeAndAfter(events, snapshots, n);
    assert events[..n + 1][..n] == events[..n];
    assert Completes(events[..n + 1], n).None?;
    assert MailboxAt(snapshots[n].registry, x) == LastMailbox(events[..n + 1], x);
    assert MailboxAt(Before(snapshots, n).registry, x) == LastMailbox(events[..n], x);
  }

  lemma StopSends<V>(events: seq<Delivered<V>>, snapshots: seq<Snapshot>, n: nat, slot: Slot)
    requires n < |snapshots| && AllExplained(events, snapshots)
    requires Stops(events[n].event).Some? && StopSlotOf(Stops(events[n].event).value.0, Stops(events[n].event).value.1) == slot
    ensures var held := MailboxAt(Before(snapshots, n).registry, slot);
            && held == LastMailbox(events[..n], slot)
            && (forall c: Chan :: Shutdown(c) in snapshots[n].sent <==> held == Some(c) && c in events[n].open)
            && (forall t: Token :: Cancel(t) in snapshots[n].sent <==> held == Some(t) && slot.ScheduleSlot?)
  {
    RegisteredBeforeAndAfter(events, snapshots, n);
    var held := LastMailbox(events[..n], slot);
    assert MailboxAt(Before(snapshots, n).registry, slot) == held;
    assert Asked(events, n, slot) && forall x :: Asked(events, n, x) ==> x == slot;
    assert forall c: Chan :: AskedMailbox(events, n, c) <==> held == Some(c);
    forall t: Token ensures AskedSchedule(events, n, t) <==> held == Some(t) && slot.ScheduleSlot? {
      if held == Some(t) && slot.ScheduleSlot? {
        assert Asked(events, n, ScheduleSlot(slot.key));
      }
    }
  }

  lemma StopIsOutright<V>(events: seq<Delivered<V>>, snapshots: seq<Snapshot>, n: nat, key: Key, spec: Spec)
    requires n < |snapshots| && AllExplained(events, snapshots) && AllCachesExplained(events, snapshots)
    requires Stops(events[n].event) == Some((key, spec))
    ensures StoppedAt(events[n], Before(snapshots, n), snapshots[n], StopSlotOf(key, spec), PC.Trigger(key.0, key.1))
  {
    var slot, b, s := StopSlotOf(key, spec), Before(snapshots, n), snapshots[n];
    forall x: Slot
      ensures var held := MailboxAt(b.registry, x);
              MailboxAt(s.registry, x) ==
              if x == slot && held.Some? && held.value in events[n].open && held.value in events[n].acks then None else held
    {
      StopMoves(events, snapshots, n, slot, x);
    }
    StopSends(events, snapshots, n, slot);
    assert CachesExplained(events, n, b.caches, s.caches);
  }

  /** What the end of a database does to each slot. */
  lemma DbStopMoves<V>(events: seq<Delivered<V>>, snapshots: seq<Snapshot>, n: nat, info: Info, gone: bool, x: Slot)
    requires n < |snapshots| && AllExplained(events, snapshots)
    requires Stops(events[n].event).None? && Starts(events[n].event).None?
    requires Completes(events, n) == if gone then Some(info) else None
    ensures MailboxAt(snapshots[n].registry, x) ==
            if gone && Within(x, info.db, info.paths) then None else MailboxAt(Before(snapshots, n).registry, x)
  {
    RegisteredBeforeAndAfter(events, snapshots, n);
    assert events[..n + 1][..n] == events[..n];
    assert Completes(events[..n + 1], n) == Completes(events, n);
    assert MailboxAt(snapshots[n].registry, x) == LastMailbox(events[..n + 1], x);
    assert MailboxAt(Before(snapshots, n).registry, x) == LastMailbox(events[..n], x);
    assert Within(x, info.db, info.paths) <==> BelongsTo(x, info);
  }

  lemma DbStopAsks<V>(events: seq<Delivered<V>>, n: nat, r: Registry, info: Info, c: Chan)
    requires n < |events| && ExactlyRegistered(events[..n], r)
    requires Stops(events[n].event).None? && AsksDbAt(events, n) == Some(info)
    ensures AskedMailbox(events, n, c) <==> exists x :: Within(x, info.db, info.paths) && MailboxAt(r, x) == Some(c)
  {
    if x :| Within(x, info.db, info.paths) && MailboxAt(r, x) == Some(c) {
      assert Asked(events, n, x) && LastMailbox(events[..n], x) == Some(c);
    }
    if AskedMailbox(events, n, c) {
      var x :| Asked(events, n, x) && LastMailbox(events[..n], x) == Some(c);
      assert Within(x, info.db, info.paths) && MailboxAt(r, x) == Some(c);
    }
  }

  lemma DbStopCancels<V>(events: seq<Delivered<V>>, n: nat, r: Registry, info: Info, t: Token)
    requires n < |events| && ExactlyRegistered(events[..n], r)
    requires Stops(events[n].event).None? && AsksDbAt(events, n) == Some(info)
    ensures AskedSchedule(events, n, t) <==> exists k: Key :: k.0 == info.db && MailboxAt(r, ScheduleSlot(k)) == Some(t)
  {
    if k: Key :| k.0 == info.db && MailboxAt(r, ScheduleSlot(k)) == Some(t) {
      assert Asked(events, n, ScheduleSlot(k)) && LastMailbox(events[..n], ScheduleSlot(k)) == Some(t);
    }
    if AskedSchedule(events, n, t) {
      var k :| Asked(events, n, ScheduleSlot(k)) && LastMailbox(events[..n], ScheduleSlot(k)) == Some(t);
      assert k.0 == info.db && MailboxAt(r, ScheduleSlot(k)) == Some(t);
    }
  }

  lemma DbStopIsOutright<V>(events: seq<Delivered<V>>, snapshots: seq<Snapshot>, n: nat, info: Info, gone: bool)
    requires n < |snapshots| && AllExplained(events, snapshots) && AllCachesExplained(events, snapshots)
    requires Stops(events[n].event).None? && Starts(events[n].event).None? && !events[n].event.CachePut?
    requires AsksDbAt(events, n) == Some(info) && Completes(events, n) == if gone then Some(info) else None
    ensures DbStopped(events[n], Before(snapshots, n), snapshots[n], info.db, info.paths, gone)
  {
    var b, s := Before(snapshots, n), snapshots[n];
    forall x: Slot
      ensures MailboxAt(s.registry, x) == if gone && Within(x, info.db, info.paths) then None else MailboxAt(b.registry, x)
    {
      DbStopMoves(events, snapshots, n, info, gone, x);
    }
    RegisteredBeforeAndAfter(events, snapshots, n);
    forall c: Chan
      ensures Shutdown(c) in s.sent <==>
              c in events[n].open && exists x :: Within(x, info.db, info.paths) && MailboxAt(b.registry, x) == Some(c)
    {
      DbStopAsks(events, n, b.registry, info, c);
    }
    forall t: Token
      ensures Cancel(t) in s.sent <==> exists k: Key :: k.0 == info.db && MailboxAt(b.registry, ScheduleSlot(k)) == Some(t)
    {
      DbStopCancels(events, n, b.registry, info, t);
    }
    assert CachesExplained(events, n, b.caches, s.caches);
  }

  lemma HardDeleteIsOutright<V>(events: seq<Delivered<V>>, snapshots: seq<Snapshot>, n: nat)
    requires n < |snapshots| && AllExplained(events, snapshots) && AllCachesExplained(events, snapshots)
    requires events[n].event.HardDelete?
    ensures Outright(events, snapshots, n)
  {
    var id := events[n].event.id;
    if LastPending(events[..n], id).Some? {
      var k := PendingWasLeft(events, n, id);
      forall m: nat | IsLastSoftDelete(events, m, n, id)
        ensures DbStopped(events[n], Before(snapshots, n), snapshots[n], events[m].event.db,
                          if events[m].event.seenPaths.Some? then events[m].event.seenPaths.value else [], true)
      {
        SoftDeleteStays(events, m, n, id);
        DbStopIsOutright(events, snapshots, n, Info(events[m].event.db, PathsOf(events[m].event)), true);
      }
    } else {
      forall m: nat ensures !IsLastSoftDelete(events, m, n, id) {
        if IsLastSoftDelete(events, m, n, id) { SoftDeleteStays(events, m, n, id); }
      }
      IdleAt(events, snapshots, n);
      assert CachesExplained(events, n, Before(snapshots, n).caches, snapshots[n].caches);
    }
  }

  lemma SoftDeleteIsOutright<V>(events: seq<Delivered<V>>, snapshots: seq<Snapshot>, n: nat)
    requires n < |snapshots| && AllExplained(events, snapshots) && AllCachesExplained(events, snapshots)
    requires events[n].event.SoftDelete?
    ensures Outright(events, snapshots, n)
  {
    var e := events[n].event;
    DbStopIsOutright(events, snapshots, n, Info(e.db, PathsOf(e)), !e.hardDeletionFollows);
  }

  lemma EventIsOutright<V>(events: seq<Delivered<V>>, snapshots: seq<Snapshot>, n: nat)
    requires n < |snapshots| && AllExplained(events, snapshots) && AllCachesExplained(events, snapshots)
    ensures Outright(events, snapshots, n)
  {
    var e := events[n].event;
    if e.SoftDelete? {
      SoftDeleteIsOutright(events, snapshots, n);
    } else if e.HardDelete? {
      HardDeleteIsOutright(events, snapshots, n);
    } else if Starts(e).Some? {
      StartIsOutright(events, snapshots, n, SlotOf(Starts(e).value.0, Starts(e).value.1));
    } else if Stops(e).Some? {
      StopIsOutright(events, snapshots, n, Stops(e).value.0, Stops(e).value.1);
    } else {
      IdleAt(events, snapshots, n);
      assert CachesExplained(events, n, Before(snapshots, n).caches, snapshots[n].caches);
    }
  }

  lemma AllEventsAreOutright<V>(events: seq<Delivered<V>>, snapshots: seq<Snapshot>)
    requires AllExplained(events, snapshots) && AllCachesExplained(events, snapshots)
    ensures forall n :: 0 <= n < |snapshots| ==> Outright(events, snapshots, n)
  {
    forall n | 0 <= n < |snapshots| ensures Outright(events, snapshots, n) {
      EventIsOutright(events, snapshots, n);
    }
  }

  /** Every run of catalog events: after each event the pending information is exactly
      that of the soft deletes not completed yet, the registry holds exactly the mailboxes
      that the last start, stop or clean-up of each slot leaves, every schedule mailbox
      with the token of its own registration, exactly the open mailboxes asked to stop got
      a shutdown, schedule runs being cancelled first, and a database whose deletion the
      event completes has left no trace.  `Outright` says of each event what it did, from its
      own fields. */
  method HandleAll<V>(now: PC.Time, events: seq<Delivered<V>>) returns (snapshots: seq<Snapshot>)
    ensures |snapshots| == |events| && AllExplained(events, snapshots)
    ensures forall n :: 0 <= n < |events| ==> Outright(events, snapshots, n)
  {
    snapshots := HandleEvents(now, events);
    AllEventsAreOutright(events, snapshots);
  }

  method HandleEvents<V>(now: PC.Time, events: seq<Delivered<V>>) returns (snapshots: seq<Snapshot>)
    ensures |snapshots| == |events| && AllExplained(events, snapshots) && AllCachesExplained(events, snapshots)
  {
    var m := Begin<V>(now);
    assert events[..0] == [];
    snapshots := [];
    for n := 0 to |events|
      invariant m.Valid() && fresh(m.Footprint()) && Follows(m, events[..n])
      invariant |snapshots| == n && AllExplained(events, snapshots) && AllCachesExplained(events, snapshots)
      invariant m.cache.namespaces.Keys == Before(snapshots, n).caches
    {
      var s := HandleNext(m, events, n, snapshots);
      snapshots := snapshots + [s];
    }
  }
}
