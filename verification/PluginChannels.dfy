/**
 `PluginChannels`: the senders through which the engine reaches its running triggers.

 Sending fails when the trigger's loop has dropped its receiver; `open` is the set of
 mailboxes whose receiver is alive.  Cancellations and shutdown messages are recorded
 in the order in which they happen.
 */
module PluginChannelsModel {
  import opened TriggerRegistry

  datatype Effect = Cancel(token: Token) | Shutdown(chan: Chan)

  datatype SendResult = NoSender | Sent(chan: Chan) | Closed

  /** Each shutdown sent to a schedule trigger of the registry comes right after the
      cancellation of that trigger's token. */
  ghost predicate CancelledFirst(r: Registry, effects: seq<Effect>, from: nat) {
    forall i, k :: from <= i < |effects| && k in r.schedule && k in r.cancels && effects[i] == Shutdown(r.schedule[k])
      ==> i > from && effects[i - 1] == Cancel(r.cancels[k])
  }

  /** What was done between two moments: exactly these runs were cancelled and exactly the
      receivers got a shutdown, schedule triggers after the cancellation of their run. */
  ghost predicate Notified(r: Registry, before: seq<Effect>, after: seq<Effect>, receivers: seq<Chan>, cancelled: set<Token>) {
    && before <= after
    && (forall c :: Shutdown(c) in after[|before|..] <==> c in receivers)
    && (forall t :: Cancel(t) in after[|before|..] <==> t in cancelled)
    && CancelledFirst(r, after, |before|)
  }

  lemma NotifiedMore(r: Registry, a: seq<Effect>, b: seq<Effect>, c: seq<Effect>, first: seq<Chan>, second: seq<Chan>,
                     some: set<Token>, more: set<Token>)
    requires Notified(r, a, b, first, some) && Notified(r, b, c, second, more)
    ensures Notified(r, a, c, first + second, some + more)
  {
    assert c[|a|..] == b[|a|..] + c[|b|..];
  }

  /** The mailboxes of all triggers of a database and of the given request paths. */
  ghost predicate Targets(r: Registry, db: string, paths: seq<string>, c: Chan) {
    || (exists k :: k in r.wal && k.0 == db && r.wal[k] == c)
    || (exists k :: k in r.schedule && k.0 == db && r.schedule[k] == c)
    || (exists p :: p in paths && p in r.request && r.request[p] == c)
  }

  /** The mailboxes, or tokens, kept under these keys. */
  ghost function KeptUnder(m: map<Key, nat>, keys: set<Key>): set<nat> {
    set k | k in keys && k in m :: m[k]
  }

  /** The tokens of the schedule triggers of a database. */
  ghost function TokensOf(r: Registry, db: string): set<Token> {
    KeptUnder(r.cancels, set k | k in r.schedule && k.0 == db)
  }

  lemma KeptUnderMore(m: map<Key, nat>, keys: set<Key>, k: Key)
    requires k in m
    ensures KeptUnder(m, keys + {k}) == KeptUnder(m, keys) + {m[k]}
  {}

  /** No mailbox is registered twice. */
  ghost predicate Separate(r: Registry) {
    && (forall j, k :: j in r.wal && k in r.schedule ==> r.wal[j] != r.schedule[k])
    && (forall p, k :: p in r.request && k in r.schedule ==> r.request[p] != r.schedule[k])
    && (forall j, k :: j in r.schedule && k in r.schedule && j != k ==> r.schedule[j] != r.schedule[k])
  }

  /** The senders; the nested maps from database to trigger name to sender are kept
      as maps from the pair of the two. */
  class PluginChannels {
    var walTriggers: map<Key, Chan>
    var scheduleTriggers: map<Key, Chan>
    var scheduleCancels: map<Key, Token>
    var requestTriggers: map<string, Chan>
    var effects: seq<Effect>

    ghost function View(): Registry
      reads this
    {
      Registry(walTriggers, scheduleTriggers, scheduleCancels, requestTriggers)
    }

    constructor ()
      ensures View() == EMPTY && effects == []
    {
      walTriggers, scheduleTriggers, scheduleCancels := map[], map[], map[];
      requestTriggers, effects := map[], [];
    }

    method AddWalTrigger(db: string, trigger: string, c: Chan)
      modifies this
      ensures View() == AddWal(old(View()), (db, trigger), c) && effects == old(effects)
    {
      walTriggers := walTriggers[(db, trigger) := c];
    }

    method AddScheduleTrigger(db: string, trigger: string, c: Chan, cancel: Token)
      modifies this
      ensures View() == AddSchedule(old(View()), (db, trigger), c, cancel) && effects == old(effects)
    {
      scheduleTriggers := scheduleTriggers[(db, trigger) := c];
      scheduleCancels := scheduleCancels[(db, trigger) := cancel];
    }

    method AddRequestTrigger(path: string, c: Chan)
      modifies this
      ensures View() == AddRequest(old(View()), path, c) && effects == old(effects)
    {
      requestTriggers := requestTriggers[path := c];
    }

    method Send(c: Chan, open: set<Chan>) returns (ok: bool)
      modifies this`effects
      ensures ok <==> c in open
      ensures effects == if ok then old(effects) + [Shutdown(c)] else old(effects)
    {
      ok := c in open;
      if ok { effects := effects + [Shutdown(c)]; }
    }

    /** Cancels the run in flight of a schedule trigger, if a token is kept for it. */
    method CancelRun(key: Key)
      modifies this`effects
      ensures effects == if key in scheduleCancels then old(effects) + [Cancel(scheduleCancels[key])] else old(effects)
    {
      if key in scheduleCancels {
        effects := effects + [Cancel(scheduleCancels[key])];
      }
    }

    method SendShutdown(db: string, trigger: string, spec: Spec, open: set<Chan>) returns (r: SendResult)
      modifies this`effects
      ensures r.NoSender? <==> !Registered(View(), (db, trigger), spec)
      ensures r.Closed? <==> Registered(View(), (db, trigger), spec) && MailboxOf(View(), (db, trigger), spec) !in open
      ensures r.Sent? ==> r.chan == MailboxOf(View(), (db, trigger), spec)
      // a schedule trigger's own run is cancelled first
      ensures effects == old(effects)
              + (if spec.ScheduleSpec? && !r.NoSender? && (db, trigger) in View().cancels
                 then [Cancel(View().cancels[(db, trigger)])] else [])
              + (if r.Sent? then [Shutdown(r.chan)] else [])
    {
      var key := (db, trigger);
      match spec {
        case WalSpec =>
          if key !in walTriggers { return NoSender; }
          var ok := Send(walTriggers[key], open);
          r := if ok then Sent(walTriggers[key]) else Closed;
        case ScheduleSpec =>
          if key !in scheduleTriggers { return NoSender; }
          CancelRun(key);
          var ok := Send(scheduleTriggers[key], open);
          r := if ok then Sent(scheduleTriggers[key]) else Closed;
        case RequestSpec(_) =>
          if trigger !in requestTriggers { return NoSender; }
          var ok := Send(requestTriggers[trigger], open);
          r := if ok then Sent(requestTriggers[trigger]) else Closed;
      }
    }

    method RemoveTrigger(db: string, trigger: string, spec: Spec)
      modifies this
      ensures View() == TriggerRegistry.RemoveTrigger(old(View()), (db, trigger), spec) && effects == old(effects)
    {
      match spec {
        case WalSpec => walTriggers := walTriggers - {(db, trigger)};
        case ScheduleSpec =>
          scheduleTriggers := scheduleTriggers - {(db, trigger)};
          scheduleCancels := scheduleCancels - {(db, trigger)};
        case RequestSpec(_) => requestTriggers := requestTriggers - {trigger};
      }
    }

    method RemoveAllForDb(db: string, paths: seq<string>)
      modifies this
      ensures View() == RemoveDb(old(View()), db, paths) && effects == old(effects)
    {
      walTriggers := WithoutDb(walTriggers, db);
      scheduleTriggers := WithoutDb(scheduleTriggers, db);
      scheduleCancels := WithoutDb(scheduleCancels, db);
      for i := 0 to |paths|
        invariant effects == old(effects)
        invariant requestTriggers == old(requestTriggers) - (set p | p in paths[..i])
        invariant walTriggers == WithoutDb(old(walTriggers), db)
        invariant scheduleTriggers == WithoutDb(old(scheduleTriggers), db)
        invariant scheduleCancels == WithoutDb(old(scheduleCancels), db)
      {
        requestTriggers := requestTriggers - {paths[i]};
        assert paths[..i + 1] == paths[..i] + [paths[i]];
      }
      assert paths[..|paths|] == paths;
    }

    /** Sends a shutdown to a mailbox that is not a schedule trigger's. */
    method Notify(c: Chan, open: set<Chan>) returns (receivers: seq<Chan>)
      requires forall k :: k in scheduleTriggers ==> scheduleTriggers[k] != c
      modifies this`effects
      ensures Notified(View(), old(effects), effects, receivers, {})
      ensures receivers == if c in open then [c] else []
    {
      var ok := Send(c, open);
      receivers := if ok then [c] else [];
      assert effects[|old(effects)|..] == if ok then [Shutdown(c)] else [];
    }

    method NotifySchedule(k: Key, open: set<Chan>) returns (receivers: seq<Chan>)
      requires Separate(View()) && k in scheduleTriggers && k in scheduleCancels
      modifies this`effects
      ensures Notified(View(), old(effects), effects, receivers, {scheduleCancels[k]})
      ensures receivers == if scheduleTriggers[k] in open then [scheduleTriggers[k]] else []
    {
      var c := scheduleTriggers[k];
      CancelRun(k);
      var ok := Send(c, open);
      receivers := if ok then [c] else [];
      assert effects[|old(effects)|..] == [Cancel(scheduleCancels[k])] + if ok then [Shutdown(c)] else [];
    }

    /** Asks every WAL trigger of the database to stop. */
    method ShutdownWal(db: string, open: set<Chan>) returns (receivers: seq<Chan>)
      requires Separate(View())
      modifies this`effects
      ensures Notified(View(), old(effects), effects, receivers, {})
      ensures forall c :: c in receivers <==> c in open && exists k :: k in walTriggers && k.0 == db && walTriggers[k] == c
    {
      receivers := [];
      var keys := set k | k in walTriggers && k.0 == db;
      var todo := keys;
      while todo != {}
        invariant todo <= keys
        invariant Notified(View(), old(effects), effects, receivers, {})
        invariant forall c :: c in receivers <==> c in open && exists k :: k in keys && k !in todo && walTriggers[k] == c
        decreases todo
      {
        var k :| k in todo;
        ghost var before := effects;
        var more := Notify(walTriggers[k], open);
        NotifiedMore(View(), old(effects), before, effects, receivers, more, {}, {});
        receivers := receivers + more;
        todo := todo - {k};
      }
    }

    /** Asks every schedule trigger of the database to stop, its run cancelled first. */
    method ShutdownSchedule(db: string, open: set<Chan>) returns (receivers: seq<Chan>)
      requires Separate(View()) && SameTriggers(View())
      modifies this`effects
      ensures Notified(View(), old(effects), effects, receivers, TokensOf(View(), db))
      ensures forall c :: c in receivers <==>
                c in open && exists k :: k in scheduleTriggers && k.0 == db && scheduleTriggers[k] == c
    {
      var keys := set k | k in scheduleTriggers && k.0 == db;
      receivers := ShutdownKeys(keys, open);
      assert forall c :: c in KeptUnder(scheduleTriggers, keys) <==>
                         exists k :: k in scheduleTriggers && k.0 == db && scheduleTriggers[k] == c;
    }

    method ShutdownKeys(keys: set<Key>, open: set<Chan>) returns (receivers: seq<Chan>)
      requires Separate(View()) && SameTriggers(View()) && keys <= scheduleTriggers.Keys
      modifies this`effects
      ensures Notified(View(), old(effects), effects, receivers, KeptUnder(scheduleCancels, keys))
      ensures forall c :: c in receivers <==> c in open && c in KeptUnder(scheduleTriggers, keys)
    {
      receivers := [];
      var todo := keys;
      while todo != {}
        invariant todo <= keys
        invariant Notified(View(), old(effects), effects, receivers, KeptUnder(scheduleCancels, keys - todo))
        invariant forall c :: c in receivers <==> c in open && c in KeptUnder(scheduleTriggers, keys - todo)
        decreases todo
      {
        var k :| k in todo;
        ghost var before := effects;
        var more := NotifySchedule(k, open);
        NotifiedMore(View(), old(effects), before, effects, receivers, more,
                     KeptUnder(scheduleCancels, keys - todo), {scheduleCancels[k]});
        KeptUnderMore(scheduleCancels, keys - todo, k);
        KeptUnderMore(scheduleTriggers, keys - todo, k);
        assert keys - todo + {k} == keys - (todo - {k});
        receivers := receivers + more;
        todo := todo - {k};
      }
      assert keys - todo == keys;
    }

    /** Asks the triggers behind the request paths to stop. */
    method ShutdownRequests(paths: seq<string>, open: set<Chan>) returns (receivers: seq<Chan>)
      requires Separate(View())
      modifies this`effects
      ensures Notified(View(), old(effects), effects, receivers, {})
      ensures forall c :: c in receivers <==>
                c in open && exists p :: p in paths && p in requestTriggers && requestTriggers[p] == c
    {
      receivers := [];
      for i := 0 to |paths|
        invariant Notified(View(), old(effects), effects, receivers, {})
        invariant forall c :: c in receivers <==>
                    c in open && exists p :: p in paths[..i] && p in requestTriggers && requestTriggers[p] == c
      {
        assert paths[..i + 1] == paths[..i] + [paths[i]];
        if paths[i] in requestTriggers {
          ghost var before := effects;
          var more := Notify(requestTriggers[paths[i]], open);
          NotifiedMore(View(), old(effects), before, effects, receivers, more, {}, {});
          receivers := receivers + more;
        }
      }
      assert paths[..|paths|] == paths;
    }

    /** Asks every trigger of the database, and of the request paths, to stop.  Exactly
        the open mailboxes among them get a shutdown. */
    method ShutdownAllForDb(db: string, paths: seq<string>, open: set<Chan>) returns (receivers: seq<Chan>)
      requires Separate(View()) && SameTriggers(View())
      modifies this`effects
      ensures Notified(View(), old(effects), effects, receivers, TokensOf(View(), db))
      ensures forall c :: c in receivers <==> Targets(View(), db, paths, c) && c in open
    {
      var wal := ShutdownWal(db, open);
      ghost var afterWal := effects;
      var schedule := ShutdownSchedule(db, open);
      NotifiedMore(View(), old(effects), afterWal, effects, wal, schedule, {}, TokensOf(View(), db));
      ghost var afterSchedule := effects;
      var requests := ShutdownRequests(paths, open);
      NotifiedMore(View(), old(effects), afterSchedule, effects, wal + schedule, requests, {} + TokensOf(View(), db), {});
      assert {} + TokensOf(View(), db) + {} == TokensOf(View(), db);
      receivers := wal + schedule + requests;
    }
  }
}
