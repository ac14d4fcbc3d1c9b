/**
 The registry of running triggers as a value: which mailbox belongs to which trigger.

 WAL and schedule triggers are registered under database and trigger name, request
 triggers under their path.  Every registration has a mailbox of its own, numbered in
 the order of registration; a schedule registration also has a cancellation token, the
 one with the number of its mailbox.
 */
module TriggerRegistry {
  import opened Basics

  type Chan = nat
  type Token = nat
  type Key = (string, string)

  datatype Spec = WalSpec | ScheduleSpec | RequestSpec(path: string)

  datatype Registry = Registry(wal: map<Key, Chan>, schedule: map<Key, Chan>, cancels: map<Key, Token>,
                               request: map<string, Chan>)

  const EMPTY := Registry(map[], map[], map[], map[])

  function AddWal(r: Registry, key: Key, c: Chan): Registry {
    r.(wal := r.wal[key := c])
  }

  function AddSchedule(r: Registry, key: Key, c: Chan, t: Token): Registry {
    r.(schedule := r.schedule[key := c], cancels := r.cancels[key := t])
  }

  function AddRequest(r: Registry, path: string, c: Chan): Registry {
    r.(request := r.request[path := c])
  }

  function Register(r: Registry, key: Key, spec: Spec, c: Chan, t: Token): Registry {
    match spec
    case WalSpec => AddWal(r, key, c)
    case ScheduleSpec => AddSchedule(r, key, c, t)
    case RequestSpec(path) => AddRequest(r, path, c)
  }

  /** Request triggers are looked up by trigger name here, although they are registered
      by path. */
  function RemoveTrigger(r: Registry, key: Key, spec: Spec): Registry {
    match spec
    case WalSpec => r.(wal := r.wal - {key})
    case ScheduleSpec => r.(schedule := r.schedule - {key}, cancels := r.cancels - {key})
    case RequestSpec(_) => r.(request := r.request - {key.1})
  }

  function WithoutDb<T>(m: map<Key, T>, db: string): map<Key, T> {
    map k | k in m && k.0 != db :: m[k]
  }

  function RemoveDb(r: Registry, db: string, paths: seq<string>): Registry {
    Registry(WithoutDb(r.wal, db), WithoutDb(r.schedule, db), WithoutDb(r.cancels, db),
             r.request - (set p | p in paths))
  }

  /** The mailbox a shutdown for this trigger goes to, if any. */
  predicate Registered(r: Registry, key: Key, spec: Spec) {
    match spec
    case WalSpec => key in r.wal
    case ScheduleSpec => key in r.schedule
    case RequestSpec(_) => key.1 in r.request
  }

  function MailboxOf(r: Registry, key: Key, spec: Spec): Chan
    requires Registered(r, key, spec)
  {
    match spec
    case WalSpec => r.wal[key]
    case ScheduleSpec => r.schedule[key]
    case RequestSpec(_) => r.request[key.1]
  }

  // ----- slots --------------------------------------------------------------------------

  /** The place in the registry under which a mailbox is kept. */
  datatype Slot = WalSlot(key: Key) | ScheduleSlot(key: Key) | RequestSlot(path: string)

  function SlotOf(key: Key, spec: Spec): Slot {
    match spec
    case WalSpec => WalSlot(key)
    case ScheduleSpec => ScheduleSlot(key)
    case RequestSpec(path) => RequestSlot(path)
  }

  /** Where a stop looks: under the trigger's name for a request trigger. */
  function StopSlotOf(key: Key, spec: Spec): Slot {
    if spec.RequestSpec? then RequestSlot(key.1) else SlotOf(key, spec)
  }

  function At<K, T>(m: map<K, T>, k: K): Option<T> {
    if k in m then Some(m[k]) else None
  }

  function MailboxAt(r: Registry, s: Slot): Option<Chan> {
    match s
    case WalSlot(key) => At(r.wal, key)
    case ScheduleSlot(key) => At(r.schedule, key)
    case RequestSlot(path) => At(r.request, path)
  }

  // ----- what registries satisfy ----------------------------------------------------------

  ghost predicate SameTriggers(r: Registry) {
    forall k :: k in r.schedule <==> k in r.cancels
  }

  /** Schedule mailboxes and tokens are kept for the same triggers, and each token is the
      one of the registration that its mailbox is of. */
  ghost predicate OwnTokens(r: Registry) {
    SameTriggers(r) && forall k :: k in r.schedule && k in r.cancels ==> r.cancels[k] == r.schedule[k]
  }

  /** Nothing of the database, nor of the paths, is left. */
  ghost predicate NoTrace(r: Registry, db: string, paths: seq<string>) {
    && (forall k :: k in r.wal ==> k.0 != db)
    && (forall k :: k in r.schedule ==> k.0 != db)
    && (forall k :: k in r.cancels ==> k.0 != db)
    && (forall p :: p in paths ==> p !in r.request)
  }
}
