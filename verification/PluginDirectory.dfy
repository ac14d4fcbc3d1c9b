/**
 Replacing a multi-file plugin directory: the new files are written to a sibling
 `.tmp` directory, the live directory is renamed to a sibling `.old`, the new one is
 renamed into place and the old one is deleted, with a rollback when the second
 rename fails.

 The filesystem is a map from paths to nodes.  Every filesystem call meets a `Fate`:
 it may succeed, fail or be cut short by a crash of the process, leaving any part of
 a recursive delete done, a file torn, or a rename done or not done.  The fates come
 from an arbitrary function of the number of calls made so far, so a statement for
 all `weather` is a statement about every way in which the steps can fail.  The disk
 keeps the history of all states it has been in.

 A call that fails while it writes, or in its first rename, does not wait for the
 cleanup of the temp directory that it starts.  Such a cleanup may go on during later
 calls and delete what they write to the same path; what it does between any two of
 their steps is an arbitrary `Meddling`.
 */
module PluginDirectory {
  import opened Basics

  /** A directory is flattened to its files, by relative path. */
  datatype Node = Dir(files: map<string, string>) | File(text: string)

  type Tree = map<string, Node>

  datatype Outcome = Done | Failed | Crashed

  /** `landed`: a call that does not succeed may still have taken effect;
      `kept`: the files a broken-off recursive delete leaves behind;
      `torn`: the text a broken-off write leaves in the file. */
  datatype Fate = Fate(outcome: Outcome, landed: bool, kept: set<string>, torn: string)

  /** What the cleanups still going on do before the next step: of the temp directory the
      files in `kept` are left, or it is `gone`; `over`: one of them has come to its end. */
  datatype Meddling = Meddling(kept: set<string>, gone: bool, over: bool)

  function TempOf(plugin: string): string { plugin + ".tmp" }

  function OldOf(plugin: string): string { plugin + ".old" }

  lemma SiblingsAreDistinct(plugin: string)
    ensures plugin != TempOf(plugin) && plugin != OldOf(plugin) && TempOf(plugin) != OldOf(plugin)
  {
    assert TempOf(plugin)[|plugin|..] == ".tmp";
    assert OldOf(plugin)[|plugin|..] == ".old";
    assert ".tmp"[1] != ".old"[1];
    assert |TempOf(plugin)| == |plugin| + 4;
  }

  /** The version of the plugin that survives a crash in this state: what is at the
      plugin path, or, between the two renames, what is at the old path. */
  function Surviving(tree: Tree, plugin: string): (v: Option<Node>) {
    if plugin in tree then Some(tree[plugin])
    else if OldOf(plugin) in tree then Some(tree[OldOf(plugin)])
    else None
  }

  /** The directory holding the given files, a later entry overwriting an earlier one
      of the same relative path. */
  function Built(files: seq<(string, string)>): (d: map<string, string>) {
    if files == [] then map[]
    else Built(files[..|files| - 1])[files[|files| - 1].0 := files[|files| - 1].1]
  }

  /** `Built` holds exactly the paths given, each with the text given last for it. */
  lemma {:induction false} BuiltHoldsLastTexts(files: seq<(string, string)>, path: string)
    ensures path in Built(files) <==> exists i :: 0 <= i < |files| && files[i].0 == path
    ensures forall i :: 0 <= i < |files| && files[i].0 == path &&
                        (forall j :: i < j < |files| ==> files[j].0 != path)
                        ==> path in Built(files) && Built(files)[path] == files[i].1
  {
    if files != [] {
      var init := files[..|files| - 1];
      BuiltHoldsLastTexts(init, path);
      assert forall i :: 0 <= i < |init| ==> init[i] == files[i];
    }
  }

  ghost predicate SameExcept(a: Tree, b: Tree, paths: set<string>) {
    forall p :: p !in paths ==> (p in a <==> p in b) && (p in a ==> a[p] == b[p])
  }

  /** All states from `lo` up to `hi` leave the same version surviving. */
  ghost predicate Steady(history: seq<Tree>, lo: nat, hi: nat, plugin: string, v: Option<Node>)
    requires hi <= |history|
  {
    forall i :: lo <= i < hi ==> Surviving(history[i], plugin) == v
  }

  function Last(history: seq<Tree>): Tree
    requires history != []
  {
    history[|history| - 1]
  }

  /** The states since then differ from the one at that time in these paths only. */
  ghost predicate Only(was: seq<Tree>, now: seq<Tree>, paths: set<string>) {
    was != [] && was <= now && forall i :: |was| <= i < |now| ==> SameExcept(Last(was), now[i], paths)
  }

  lemma OnlyMore(a: seq<Tree>, b: seq<Tree>, c: seq<Tree>, paths: set<string>)
    requires Only(a, b, paths) && Only(b, c, paths)
    ensures Only(a, c, paths)
  {
    OnlyLast(a, b, paths);
    forall i | |a| <= i < |c| ensures SameExcept(Last(a), c[i], paths) {
      if i < |b| {
        assert c[i] == b[i];
      }
    }
  }

  lemma OnlyWider(a: seq<Tree>, b: seq<Tree>, some: set<string>, paths: set<string>)
    requires Only(a, b, some) && some <= paths
    ensures Only(a, b, paths)
  {}

  lemma OnlyLast(a: seq<Tree>, b: seq<Tree>, paths: set<string>)
    requires Only(a, b, paths)
    ensures SameExcept(Last(a), Last(b), paths)
  {
    if |a| < |b| {
      assert SameExcept(Last(a), b[|b| - 1], paths);
    } else {
      assert a == b;
    }
  }

  /** All states since then leave the version surviving that survived then. */
  ghost predicate Keeps(was: seq<Tree>, now: seq<Tree>, plugin: string) {
    && was != [] && was <= now
    && Steady(now, |was|, |now|, plugin, Surviving(Last(was), plugin))
    && Surviving(Last(now), plugin) == Surviving(Last(was), plugin)
  }

  lemma KeepsMore(a: seq<Tree>, b: seq<Tree>, c: seq<Tree>, plugin: string)
    requires Keeps(a, b, plugin) && Keeps(b, c, plugin)
    ensures Keeps(a, c, plugin)
  {
    forall i | |a| <= i < |c| ensures Surviving(c[i], plugin) == Surviving(Last(a), plugin) {
      if i < |b| {
        assert c[i] == b[i];
      }
    }
  }

  /** The temp path does not matter for the version surviving, nor does the old one while
      there is something at the plugin path. */
  lemma OnlyTempKeeps(a: seq<Tree>, b: seq<Tree>, plugin: string)
    requires Only(a, b, {TempOf(plugin)})
    ensures Keeps(a, b, plugin)
  {
    SiblingsAreDistinct(plugin);
    OnlyLast(a, b, {TempOf(plugin)});
  }

  lemma OnlyOldKeeps(a: seq<Tree>, b: seq<Tree>, plugin: string)
    requires Only(a, b, {OldOf(plugin)}) && plugin in Last(a)
    ensures Keeps(a, b, plugin)
  {
    SiblingsAreDistinct(plugin);
    OnlyLast(a, b, {OldOf(plugin)});
  }

  function Three(plugin: string): set<string> { {plugin, TempOf(plugin), OldOf(plugin)} }

  /** There is a directory at the path, or nothing. */
  predicate IsDirAt(tree: Tree, p: string) {
    p in tree ==> tree[p].Dir?
  }

  /** Nothing but directories at the plugin's three paths. */
  predicate Tidy(tree: Tree, plugin: string) {
    IsDirAt(tree, plugin) && IsDirAt(tree, TempOf(plugin)) && IsDirAt(tree, OldOf(plugin))
  }

  /** No plain file keeps a call from getting to the swap. */
  predicate Passable(tree: Tree, plugin: string) {
    IsDirAt(tree, TempOf(plugin)) && (plugin in tree ==> IsDirAt(tree, OldOf(plugin)))
  }

  /** The steps that empty and create the temp directory, ... */
  function PrepareSteps(tree: Tree, plugin: string): nat { if TempOf(plugin) in tree then 2 else 1 }

  /** ... that move the live directory away, ... */
  function AsideSteps(tree: Tree, plugin: string): nat {
    if plugin !in tree then 0 else if OldOf(plugin) in tree then 2 else 1
  }

  /** ... and all those before the swap, three for each file among them. */
  function StepsToSwap(tree: Tree, plugin: string, files: seq<(string, string)>): nat {
    PrepareSteps(tree, plugin) + 3 * |files| + AsideSteps(tree, plugin)
  }

  /** The step starts a cleanup if it fails: creating a parent directory, writing a file or
      renaming the live directory. */
  predicate StartsCleanup(tree: Tree, plugin: string, files: seq<(string, string)>, step: int) {
    var first := PrepareSteps(tree, plugin);
    if step < first + 3 * |files| then first <= step && (step - first) % 3 != 0
    else plugin in tree && step == StepsToSwap(tree, plugin, files) - 1
  }

  /** The `n` steps from `from` on succeed. */
  ghost predicate DoneFor(weather: nat -> Fate, from: nat, n: nat) {
    forall i :: from <= i < from + n ==> weather(i).outcome == Done
  }

  /** They succeed, and the one after them is the first that does not. */
  ghost predicate StopsAfter(weather: nat -> Fate, from: nat, n: nat) {
    DoneFor(weather, from, n) && weather(from + n).outcome != Done
  }

  /** Of `n` steps from `from` on all were taken with success, or those up to the first that
      did not succeed. */
  ghost predicate Stepwise(weather: nat -> Fate, from: nat, n: nat, r: Outcome, until: nat) {
    if r == Done then until == from + n && DoneFor(weather, from, n)
    else from < until <= from + n && StopsAfter(weather, from, until - 1 - from) && r == weather(until - 1).outcome
  }

  lemma StepwiseMore(weather: nat -> Fate, from: nat, n: nat, middle: nat, m: nat, r: Outcome, until: nat)
    requires Stepwise(weather, from, n, Done, middle) && Stepwise(weather, middle, m, r, until)
    ensures Stepwise(weather, from, n + m, r, until)
  {}

  /** Writing a file ends the writing of all: `i` files were written in three steps each. */
  lemma WritingEnded(weather: nat -> Fate, from: nat, i: nat, n: nat, now: nat, r: Outcome, until: nat)
    requires i < n && r != Done
    requires Stepwise(weather, from, 3 * i, Done, now) && Stepwise(weather, now, 3, r, until)
    ensures Stepwise(weather, from, 3 * n, r, until)
    ensures (until - 1 - from) % 3 != 0 <==> until > now + 1
  {
    StepwiseMore(weather, from, 3 * i, now, 3, r, until);
    assert until - 1 - from == 3 * i + (until - 1 - now);
  }

  /** More steps do not matter to a call that has ended. */
  lemma StepwiseWider(weather: nat -> Fate, from: nat, n: nat, m: nat, r: Outcome, until: nat)
    requires Stepwise(weather, from, n, r, until) && r != Done && n <= m
    ensures Stepwise(weather, from, m, r, until)
  {}

  /** What a call with no cleanup going on comes to whose swap, the step `swap`, fails.  The
      version that survives, if there is one, is put back unless that fails too, and the temp
      directory is there afterwards exactly if deleting it failed. */
  ghost predicate SwapFailed(weather: nat -> Fate, swap: nat, plugin: string, some: bool, r: Outcome, t': Tree) {
    var last := if some then swap + 2 else swap + 1;
    && r != Done
    && (r == Crashed <==> (some && weather(swap + 1).outcome == Crashed) || weather(last).outcome == Crashed)
    && (r == Failed ==>
          && (plugin in t' <==> some && weather(swap + 1).outcome == Done)
          && (TempOf(plugin) in t' <==> weather(last).outcome == Failed))
  }

  /** And what it comes to with a swap that succeeds: the old version is left to be deleted. */
  ghost predicate SwapDone(weather: nat -> Fate, swap: nat, v: Option<Node>, r: Outcome) {
    match v
    case None => r == Done
    case Some(node) => if node.Dir? then r == weather(swap + 1).outcome else r != Done
  }

  ghost predicate SwapDecides(weather: nat -> Fate, swap: nat, plugin: string, v: Option<Node>, r: Outcome, committed: bool, t': Tree) {
    && (weather(swap).outcome == Failed ==> !committed && SwapFailed(weather, swap, plugin, v.Some?, r, t'))
    && (weather(swap).outcome == Done ==> committed && SwapDone(weather, swap, v, r))
    && (weather(swap).outcome == Crashed ==> r == Crashed)
  }

  /** How the fates of its steps decide what a call comes to that begins in the tree `t` with
      no cleanup going on and no plain file in its way. */
  ghost predicate Decided(weather: nat -> Fate, from: nat, plugin: string, files: seq<(string, string)>, t: Tree,
                          r: Outcome, committed: bool, t': Tree, until: nat, pending: nat) {
    var swap := StepsToSwap(t, plugin, files);
    // it ends with the first step before the swap that does not succeed, without a commit
    && (forall n :: 0 <= n < swap && StopsAfter(weather, from, n) ==>
          && r == weather(from + n).outcome && !committed && until == from + n + 1
          && pending == if r == Failed && StartsCleanup(t, plugin, files, n) then 1 else 0)
    && (DoneFor(weather, from, swap) ==>
          pending == 0 && SwapDecides(weather, from + swap, plugin, Surviving(t, plugin), r, committed, t'))
  }

  lemma EndedBeforeSwap(weather: nat -> Fate, from: nat, plugin: string, files: seq<(string, string)>, t: Tree,
                        r: Outcome, t': Tree, until: nat, pending: nat)
    requires Stepwise(weather, from, StepsToSwap(t, plugin, files), r, until) && r != Done
    requires pending == if r == Failed && StartsCleanup(t, plugin, files, until - 1 - from) then 1 else 0
    ensures Decided(weather, from, plugin, files, t, r, false, t', until, pending)
  {
    assert weather(until - 1).outcome != Done;
    forall n | 0 <= n && StopsAfter(weather, from, n) ensures until == from + n + 1 {
      assert weather(from + n).outcome != Done;
    }
  }

  lemma SwapReached(weather: nat -> Fate, from: nat, plugin: string, files: seq<(string, string)>, t: Tree, swap: nat,
                    r: Outcome, committed: bool, t': Tree, until: nat)
    requires Stepwise(weather, from, StepsToSwap(t, plugin, files), Done, swap)
    requires SwapDecides(weather, swap, plugin, Surviving(t, plugin), r, committed, t')
    ensures Decided(weather, from, plugin, files, t, r, committed, t', until, 0)
  {
    forall n | 0 <= n && StopsAfter(weather, from, n) ensures n >= StepsToSwap(t, plugin, files) {
      assert weather(from + n).outcome != Done;
    }
  }

  /** Some of the files, with their texts. */
  ghost predicate Part(a: map<string, string>, b: map<string, string>) {
    forall x :: x in a ==> x in b && a[x] == b[x]
  }

  lemma PartMore(a: map<string, string>, b: map<string, string>, all: map<string, string>, name: string, text: string)
    requires Part(a, b[name := text]) && Part(b, all)
    ensures Part(a, all[name := text])
  {}

  lemma PartTrans(a: map<string, string>, b: map<string, string>, c: map<string, string>)
    requires Part(a, b) && Part(b, c)
    ensures Part(a, c)
  {}

  function Restricted(files: map<string, string>, kept: set<string>): map<string, string> {
    map x | x in files && x in kept :: files[x]
  }

  /** At the path, some of what was there before is left, or nothing. */
  ghost predicate Lessened(a: Tree, b: Tree, p: string) {
    p in b ==> p in a && (if a[p].Dir? then b[p].Dir? && Part(b[p].files, a[p].files) else b[p] == a[p])
  }

  lemma LessenedMore(a: Tree, b: Tree, c: Tree, p: string)
    requires Lessened(a, b, p) && Lessened(b, c, p)
    ensures Lessened(a, c, p)
  {
    if p in c && a[p].Dir? {
      PartTrans(c[p].files, b[p].files, a[p].files);
    }
  }

  lemma SteadyLater(was: seq<Tree>, now: seq<Tree>, commit: nat, plugin: string, v: Option<Node>)
    requires Keeps(was, now, plugin) && commit < |was| && Steady(was, commit, |was|, plugin, v)
    ensures Steady(now, commit, |now|, plugin, v)
  {
    forall i | commit <= i < |now| ensures Surviving(now[i], plugin) == v {
      if i < |was| {
        assert now[i] == was[i];
      }
    }
  }

  class Disk {
    const plugin: string
    const temp: string
    const old_: string
    const weather: nat -> Fate
    const meddling: nat -> Meddling
    var tree: Tree
    var clock: nat
    var history: seq<Tree>
    var pending: nat // cleanups started and not at their end
    var ticks: nat

    ghost predicate Valid()
      reads this
    {
      && temp == TempOf(plugin) && old_ == OldOf(plugin)
      && plugin != temp && plugin != old_ && temp != old_
      && |history| > 0 && history[|history| - 1] == tree
    }

    /** No step fails from here on. */
    ghost predicate Fair(from: nat) {
      forall i :: from <= i ==> weather(i).outcome == Done
    }

    /** Cleanups delete every file there is, again and again. */
    ghost predicate Greedy() {
      forall i: nat :: meddling(i) == Meddling({}, false, false)
    }

    constructor (plugin: string, start: Tree, weather: nat -> Fate, meddling: nat -> Meddling)
      ensures Valid()
      ensures this.plugin == plugin && this.weather == weather && this.meddling == meddling
      ensures tree == start && history == [start] && pending == 0 && clock == 0
    {
      SiblingsAreDistinct(plugin);
      this.plugin := plugin;
      this.temp := TempOf(plugin);
      this.old_ := OldOf(plugin);
      this.weather := weather;
      this.meddling := meddling;
      tree, clock, history, pending, ticks := start, 0, [start], 0, 0;
    }

    method NextFate() returns (f: Fate)
      modifies this`clock
      ensures f == weather(old(clock)) && clock == old(clock) + 1
    {
      f := weather(clock);
      clock := clock + 1;
    }

    method Record(t: Tree)
      requires Valid()
      modifies this`tree, this`history
      ensures Valid() && tree == t && history == old(history) + [t]
    {
      tree := t;
      history := history + [t];
    }

    /** The cleanups going on get their turn. */
    method Yield()
      requires Valid()
      modifies this`tree, this`history, this`pending, this`ticks
      ensures Valid() && Only(old(history), history, {temp}) && pending <= old(pending)
      ensures SameExcept(old(tree), tree, {temp}) && Lessened(old(tree), tree, temp)
      ensures old(pending) == 0 ==> tree == old(tree)
      ensures Greedy() && old(pending) > 0 ==>
                pending == old(pending) && (temp in tree <==> temp in old(tree))
                && (temp in tree && tree[temp].Dir? ==> tree[temp] == Dir(map[]))
    {
      if pending == 0 { return; }
      var m := meddling(ticks);
      ticks := ticks + 1;
      if temp in tree && tree[temp].Dir? {
        Record(if m.gone then tree - {temp} else tree[temp := Dir(Restricted(tree[temp].files, m.kept))]);
      }
      if m.over { pending := pending - 1; }
    }

    /** The cleanups come to their end, whatever they leave. */
    method Settle()
      requires Valid()
      modifies this`tree, this`history, this`pending, this`ticks
      ensures Valid() && Only(old(history), history, {temp}) && pending == 0
      ensures IsDirAt(old(tree), temp) ==> IsDirAt(tree, temp)
    {
      while pending > 0
        invariant Valid() && Only(old(history), history, {temp})
        invariant IsDirAt(old(tree), temp) ==> IsDirAt(tree, temp)
        decreases pending
      {
        var before := pending;
        ghost var sofar := history;
        Yield();
        OnlyMore(old(history), sofar, history, {temp});
        if pending == before { pending := pending - 1; }
      }
    }

    /** Recursive delete.  It removes file by file, so even a successful call passes
        through a state with some of the files gone; it refuses a plain file and a path
        that does not exist. */
    method RemoveDirAll(p: string) returns (r: Outcome)
      requires Valid()
      modifies this`tree, this`clock, this`history
      ensures Valid() && Only(old(history), history, {p}) && clock == old(clock) + 1
      ensures SameExcept(old(tree), tree, {p})
      ensures r == Done ==> p in old(tree) && tree == old(tree) - {p}
      ensures p in old(tree) && old(tree)[p].Dir? ==> r == weather(old(clock)).outcome
      ensures r == Crashed <==> weather(old(clock)).outcome == Crashed
      ensures p in tree <==> p in old(tree) && (old(tree)[p].File? || weather(old(clock)).outcome != Done)
      ensures IsDirAt(old(tree), p) ==> IsDirAt(tree, p)
    {
      var f := NextFate();
      if p !in tree || tree[p].File? {
        return if f.outcome == Crashed then Crashed else Failed;
      }
      Record(tree[p := Dir(Restricted(tree[p].files, f.kept))]);
      if f.outcome == Done {
        Record(tree - {p});
      }
      r := f.outcome;
    }

    /** Creates the directory unless it is there. */
    method CreateDirAll(p: string) returns (r: Outcome)
      requires Valid()
      modifies this`tree, this`clock, this`history
      ensures Valid() && Only(old(history), history, {p}) && clock == old(clock) + 1
      ensures SameExcept(old(tree), tree, {p})
      ensures p in old(tree) ==> tree == old(tree)
      ensures p !in old(tree) && p in tree ==> tree[p] == Dir(map[])
      ensures r == Done ==> p in tree && tree[p].Dir?
      ensures IsDirAt(old(tree), p) ==> r == weather(old(clock)).outcome
    {
      var f := NextFate();
      if p in tree {
        return if tree[p].File? && f.outcome == Done then Failed else f.outcome;
      }
      if f.outcome == Done || f.landed {
        Record(tree[p := Dir(map[])]);
      }
      r := f.outcome;
    }

    /** A call that only looks. */
    method Inspect() returns (r: Outcome)
      requires Valid()
      modifies this`clock
      ensures Valid() && clock == old(clock) + 1 && r == weather(old(clock)).outcome
    {
      var f := NextFate();
      r := f.outcome;
    }

    method WriteFile(p: string, name: string, text: string) returns (r: Outcome)
      requires Valid()
      modifies this`tree, this`clock, this`history
      ensures Valid() && Only(old(history), history, {p}) && clock == old(clock) + 1
      ensures r == Done ==>
                p in old(tree) && old(tree)[p].Dir? && tree == old(tree)[p := Dir(old(tree)[p].files[name := text])]
      ensures p in old(tree) && old(tree)[p].Dir? ==> r == weather(old(clock)).outcome
      ensures IsDirAt(old(tree), p) ==> IsDirAt(tree, p)
    {
      var f := NextFate();
      if p !in tree || tree[p].File? {
        return if f.outcome == Crashed then Crashed else Failed;
      }
      if f.outcome == Done {
        Record(tree[p := Dir(tree[p].files[name := text])]);
      } else if f.landed {
        Record(tree[p := Dir(tree[p].files[name := f.torn])]);
      }
      r := f.outcome;
    }

    /** A rename to a free path is atomic: it is done or not done, but a crash may come
        before or after it. */
    method Rename(from: string, to: string) returns (r: Outcome)
      requires Valid() && to !in tree && from != to
      modifies this`tree, this`clock, this`history
      ensures Valid() && Only(old(history), history, {from, to}) && clock == old(clock) + 1
      ensures || (history == old(history) && tree == old(tree) && r != Done)
              || (from in old(tree) && r != Failed && tree == old(tree)[to := old(tree)[from]] - {from}
                  && history == old(history) + [tree])
      ensures from in old(tree) ==> r == weather(old(clock)).outcome
      ensures from !in old(tree) ==> tree == old(tree)
    {
      var f := NextFate();
      if from !in tree {
        return if f.outcome == Crashed then Crashed else Failed;
      }
      if f.outcome == Done || (f.outcome == Crashed && f.landed) {
        Record(tree[to := tree[from]] - {from});
      }
      r := f.outcome;
    }

    /** Starts a cleanup of the temp directory and does not wait for it. */
    method SpawnCleanup()
      modifies this`pending
      ensures pending == old(pending) + 1
    {
      pending := pending + 1;
    }

    /** The process ends, and with it the cleanups. */
    method Restart()
      modifies this`pending
      ensures pending == 0
    {
      pending := 0;
    }

    /** The cleanups going on do not stop a call: there are none, or they only delete
        files. */
    ghost predicate Calm()
      reads this`pending
    {
      pending == 0 || Greedy()
    }

    /** Deletes what is left at the temp path. */
    method ClearTemp() returns (r: Outcome)
      requires Valid()
      modifies this`tree, this`clock, this`history, this`pending, this`ticks
      ensures Valid() && Only(old(history), history, {temp}) && old(clock) <= clock && pending <= old(pending)
      ensures r == Done ==> temp !in tree
      ensures IsDirAt(old(tree), temp) ==> IsDirAt(tree, temp)
      ensures old(Calm()) ==> pending == old(pending)
      ensures IsDirAt(old(tree), temp) && old(Calm()) ==> Stepwise(weather, old(clock), if temp in old(tree) then 1 else 0, r, clock)
    {
      Yield();
      if temp !in tree { return Done; }
      ghost var first := history;
      r := RemoveDirAll(temp);
      OnlyMore(old(history), first, history, {temp});
      if r != Done { return; }
      ghost var second := history;
      Yield();
      OnlyMore(old(history), second, history, {temp});
    }

    /** Empties the temp path and creates the directory there. */
    method PrepareTemp() returns (r: Outcome)
      requires Valid()
      modifies this`tree, this`clock, this`history, this`pending, this`ticks
      ensures Valid() && Only(old(history), history, {temp}) && old(clock) <= clock && pending <= old(pending)
      ensures r == Done ==> temp in tree && tree[temp] == Dir(map[])
      ensures IsDirAt(old(tree), temp) ==> IsDirAt(tree, temp)
      ensures old(Calm()) ==> pending == old(pending)
      ensures IsDirAt(old(tree), temp) && old(Calm()) ==> Stepwise(weather, old(clock), PrepareSteps(old(tree), plugin), r, clock)
    {
      r := ClearTemp();
      if r != Done { return; }
      ghost var first, now := history, clock;
      r := CreateDirAll(temp);
      OnlyMore(old(history), first, history, {temp});
      if IsDirAt(old(tree), temp) && old(Calm()) {
        StepwiseMore(weather, old(clock), PrepareSteps(old(tree), plugin) - 1, now, 1, r, clock);
      }
    }

    /** The files at the temp path, none if there is no directory. */
    ghost function TempFiles(t: Tree): map<string, string> {
      if temp in t && t[temp].Dir? then t[temp].files else map[]
    }

    /** Parent directories, the temp directory with them if it is gone. */
    method CreateParents() returns (r: Outcome)
      requires Valid() && IsDirAt(tree, temp)
      modifies this`tree, this`clock, this`history, this`pending, this`ticks
      ensures Valid() && Only(old(history), history, {temp}) && clock == old(clock) + 1 && pending <= old(pending)
      ensures IsDirAt(tree, temp) && Part(TempFiles(tree), TempFiles(old(tree)))
      ensures old(pending) == 0 && temp in old(tree) ==> tree == old(tree)
      ensures r == weather(old(clock)).outcome && (r == Done ==> temp in tree)
      ensures old(Calm()) ==> pending == old(pending)
    {
      Yield();
      ghost var first := history;
      r := CreateDirAll(temp);
      OnlyMore(old(history), first, history, {temp});
    }

    method WriteThere(name: string, text: string) returns (r: Outcome)
      requires Valid() && temp in tree && tree[temp].Dir?
      modifies this`tree, this`clock, this`history, this`pending, this`ticks
      ensures Valid() && Only(old(history), history, {temp}) && clock == old(clock) + 1 && pending <= old(pending)
      ensures r == Done ==> temp in tree && tree[temp].Dir? && Part(TempFiles(tree), TempFiles(old(tree))[name := text])
      ensures r == Done && old(pending) == 0 ==> tree[temp] == Dir(TempFiles(old(tree))[name := text])
      ensures old(Calm()) ==> r == weather(old(clock)).outcome && pending == old(pending)
      ensures IsDirAt(tree, temp)
    {
      Yield();
      ghost var first := history;
      r := WriteFile(temp, name, text);
      OnlyMore(old(history), first, history, {temp});
    }

    /** The parent directories and then the file. */
    method WriteWithParents(name: string, text: string) returns (r: Outcome)
      requires Valid() && IsDirAt(tree, temp)
      modifies this`tree, this`clock, this`history, this`pending, this`ticks
      ensures Valid() && Only(old(history), history, {temp}) && old(clock) <= clock && pending <= old(pending)
      ensures IsDirAt(tree, temp)
      ensures r == Done ==> temp in tree && Part(TempFiles(tree), TempFiles(old(tree))[name := text])
      ensures r == Done && old(pending) == 0 && temp in old(tree) ==>
                tree[temp] == Dir(TempFiles(old(tree))[name := text])
      ensures old(Calm()) ==> Stepwise(weather, old(clock), 2, r, clock) && pending == old(pending)
    {
      r := CreateParents();
      if r != Done { return; }
      ghost var first := history;
      r := WriteThere(name, text);
      OnlyMore(old(history), first, history, {temp});
    }

    /** One file; a failure after the path check starts a cleanup. */
    method WriteOne(name: string, text: string) returns (r: Outcome)
      requires Valid() && IsDirAt(tree, temp)
      modifies this`tree, this`clock, this`history, this`pending, this`ticks
      ensures Valid() && Only(old(history), history, {temp}) && old(clock) <= clock
      ensures pending > 0 ==> old(pending) > 0 || r == Failed
      ensures IsDirAt(tree, temp)
      ensures r == Done ==>
                && pending <= old(pending)
                && temp in tree && Part(TempFiles(tree), TempFiles(old(tree))[name := text])
      ensures r == Done && old(pending) == 0 && temp in old(tree) ==>
                tree[temp] == Dir(TempFiles(old(tree))[name := text])
      ensures old(Calm()) ==>
                && Stepwise(weather, old(clock), 3, r, clock)
                && pending == old(pending) + if r == Failed && clock > old(clock) + 1 then 1 else 0
    {
      r := Inspect(); // the path check returns without cleaning up
      if r != Done { return; }
      r := WriteWithParents(name, text);
      if r == Failed { SpawnCleanup(); }
    }

    /** Writes the files to the temp directory. */
    method WriteFiles(files: seq<(string, string)>) returns (r: Outcome)
      requires Valid() && temp in tree && tree[temp] == Dir(map[])
      modifies this`tree, this`clock, this`history, this`pending, this`ticks
      ensures Valid() && Only(old(history), history, {temp}) && old(clock) <= clock
      ensures pending > 0 ==> old(pending) > 0 || r == Failed
      ensures IsDirAt(tree, temp)
      ensures r == Done ==>
                && pending <= old(pending)
                && temp in tree && Part(TempFiles(tree), Built(files))
                && (old(pending) == 0 ==> tree[temp] == Dir(Built(files)))
      ensures old(Calm()) ==>
                && Stepwise(weather, old(clock), 3 * |files|, r, clock)
                && pending == old(pending) + if r == Failed && (clock - 1 - old(clock)) % 3 != 0 then 1 else 0
    {
      r := Done;
      for i := 0 to |files|
        invariant Valid() && Only(old(history), history, {temp}) && old(clock) <= clock
        invariant r == Done && pending <= old(pending)
        invariant temp in tree && tree[temp].Dir? && Part(TempFiles(tree), Built(files[..i]))
        invariant old(pending) == 0 ==> tree[temp] == Dir(Built(files[..i]))
        invariant old(Calm()) ==> pending == old(pending) && Stepwise(weather, old(clock), 3 * i, Done, clock)
      {
        ghost var sofar, had, now := history, TempFiles(tree), clock;
        r := WriteOne(files[i].0, files[i].1);
        OnlyMore(old(history), sofar, history, {temp});
        if r != Done {
          if old(Calm()) { WritingEnded(weather, old(clock), i, |files|, now, r, clock); }
          return;
        }
        if old(Calm()) { StepwiseMore(weather, old(clock), 3 * i, now, 3, r, clock); }
        assert files[..i + 1][..i] == files[..i];
        PartMore(TempFiles(tree), had, Built(files[..i]), files[i].0, files[i].1);
      }
      assert files[..|files|] == files;
    }

    /** Builds the new directory at the temp path. */
    method WriteTemp(files: seq<(string, string)>) returns (r: Outcome)
      requires Valid()
      modifies this`tree, this`clock, this`history, this`pending, this`ticks
      ensures Valid() && Only(old(history), history, {temp}) && old(clock) <= clock
      ensures pending > 0 ==> old(pending) > 0 || r == Failed
      ensures r == Done ==>
                && pending <= old(pending)
                && temp in tree && tree[temp].Dir? && Part(TempFiles(tree), Built(files))
                && (old(pending) == 0 ==> tree[temp] == Dir(Built(files)))
      ensures Fair(old(clock)) && IsDirAt(old(tree), temp) && old(Calm()) ==> r == Done
      ensures r == Done && old(Calm()) ==> pending == old(pending)
      ensures IsDirAt(old(tree), temp) ==> IsDirAt(tree, temp)
      ensures old(pending) == 0 && IsDirAt(old(tree), temp) ==>
                && Stepwise(weather, old(clock), PrepareSteps(old(tree), plugin) + 3 * |files|, r, clock)
                && pending == if r == Failed && StartsCleanup(old(tree), plugin, files, clock - 1 - old(clock)) then 1 else 0
    {
      r := PrepareTemp();
      if r != Done { return; }
      ghost var first, now := history, clock;
      r := WriteFiles(files);
      OnlyMore(old(history), first, history, {temp});
      if old(pending) == 0 && IsDirAt(old(tree), temp) {
        StepwiseMore(weather, old(clock), PrepareSteps(old(tree), plugin), now, 3 * |files|, r, clock);
        assert r != Done ==> clock - 1 - old(clock) - PrepareSteps(old(tree), plugin) == clock - 1 - now;
      }
    }

    /** Deletes what is left at the old path while the live directory is in place. */
    method ClearOld() returns (r: Outcome)
      requires Valid() && plugin in tree
      modifies this`tree, this`clock, this`history, this`pending, this`ticks
      ensures Valid() && Only(old(history), history, {temp, old_}) && Keeps(old(history), history, plugin)
      ensures old(clock) <= clock && pending <= old(pending)
      ensures plugin in tree && tree[plugin] == old(tree)[plugin] && (r == Done ==> old_ !in tree)
      ensures Lessened(old(tree), tree, temp) && (old(pending) == 0 && temp in old(tree) ==> temp in tree && tree[temp] == old(tree)[temp])
      ensures old(Calm()) ==> pending == old(pending) && (temp in old(tree) ==> temp in tree)
      ensures IsDirAt(old(tree), old_) ==> Stepwise(weather, old(clock), if old_ in old(tree) then 1 else 0, r, clock)
    {
      if old_ !in tree { return Done; }
      Yield();
      OnlyTempKeeps(old(history), history, plugin);
      OnlyWider(old(history), history, {temp}, {temp, old_});
      ghost var first := history;
      r := RemoveDirAll(old_);
      OnlyOldKeeps(first, history, plugin);
      OnlyWider(first, history, {old_}, {temp, old_});
      KeepsMore(old(history), first, history, plugin);
      OnlyMore(old(history), first, history, {temp, old_});
    }

    /** Renames the live directory to the free old path. */
    method RenameAside() returns (r: Outcome)
      requires Valid() && plugin in tree && old_ !in tree
      modifies this`tree, this`clock, this`history, this`pending, this`ticks
      ensures Valid() && Only(old(history), history, Three(plugin)) && Keeps(old(history), history, plugin)
      ensures old(clock) <= clock && (pending > 0 ==> old(pending) > 0 || r == Failed)
      ensures r == Done ==> pending <= old(pending) && plugin !in tree && old_ in tree && tree[old_] == old(tree)[plugin]
      ensures r == Done ==> Lessened(old(tree), tree, temp)
      ensures r == Done && old(pending) == 0 && temp in old(tree) ==> temp in tree && tree[temp] == old(tree)[temp]
      ensures r == Done && old(Calm()) ==> pending == old(pending) && (temp in old(tree) ==> temp in tree)
      ensures Stepwise(weather, old(clock), 1, r, clock)
      ensures old(pending) == 0 ==> pending == if r == Failed then 1 else 0
    {
      Yield();
      OnlyTempKeeps(old(history), history, plugin);
      OnlyWider(old(history), history, {temp}, Three(plugin));
      ghost var first := history;
      r := Rename(plugin, old_);
      OnlyWider(first, history, {plugin, old_}, Three(plugin));
      assert Keeps(first, history, plugin);
      KeepsMore(old(history), first, history, plugin);
      OnlyMore(old(history), first, history, Three(plugin));
      if r == Failed { SpawnCleanup(); }
    }

    /** Renames the live directory out of the way. */
    method MoveAside() returns (r: Outcome)
      requires Valid()
      modifies this`tree, this`clock, this`history, this`pending, this`ticks
      ensures Valid() && Only(old(history), history, Three(plugin)) && Keeps(old(history), history, plugin)
      ensures old(clock) <= clock && (pending > 0 ==> old(pending) > 0 || r == Failed)
      ensures r == Done ==> pending <= old(pending) && plugin !in tree && Lessened(old(tree), tree, temp)
      ensures r == Done && old(pending) == 0 && temp in old(tree) ==> temp in tree && tree[temp] == old(tree)[temp]
      ensures r == Done && old(Calm()) ==> pending == old(pending) && (temp in old(tree) ==> temp in tree)
      ensures (plugin in old(tree) ==> IsDirAt(old(tree), old_)) ==>
                var n := AsideSteps(old(tree), plugin);
                && Stepwise(weather, old(clock), n, r, clock)
                && (old(pending) == 0 ==> pending == if r == Failed && clock == old(clock) + n then 1 else 0)
    {
      if plugin !in tree { return Done; }
      r := ClearOld();
      OnlyWider(old(history), history, {temp, old_}, Three(plugin));
      if r != Done { return; }
      ghost var first, middle := history, tree;
      r := RenameAside();
      KeepsMore(old(history), first, history, plugin);
      OnlyMore(old(history), first, history, Three(plugin));
      if r == Done { LessenedMore(old(tree), middle, tree, temp); }
    }

    /** The step that deletes the temp directory in a rollback that begins with step `from`. */
    ghost function DeleteStep(from: nat, t: Tree): nat { if old_ in t then from + 1 else from }

    /** Something is left at the temp path only if what was there is a plain file or the
        delete did not succeed, and with no cleanup going on exactly then. */
    ghost predicate TempLeft(cleanups: nat, t: Tree, last: nat, t': Tree) {
      var stays := temp in t && (t[temp].File? || weather(last).outcome != Done);
      (temp in t' ==> stays) && (cleanups == 0 && stays ==> temp in t')
    }

    /** After a failed swap: puts the old directory back and deletes the new one. */
    method RollBack() returns (crashed: bool)
      requires Valid() && plugin !in tree
      modifies this`tree, this`clock, this`history, this`pending, this`ticks
      ensures Valid() && Only(old(history), history, Three(plugin)) && Keeps(old(history), history, plugin)
      ensures pending <= old(pending)
      ensures !crashed ==> (plugin !in tree <==> old_ !in old(tree) || weather(old(clock)).outcome == Failed)
      ensures var last := DeleteStep(old(clock), old(tree));
              && (crashed <==> (old_ in old(tree) && weather(old(clock)).outcome == Crashed) || weather(last).outcome == Crashed)
              && (!crashed ==> TempLeft(old(pending), old(tree), last, tree))
    {
      if old_ in tree {
        var back := Rename(old_, plugin);
        OnlyWider(old(history), history, {old_, plugin}, Three(plugin));
        assert Keeps(old(history), history, plugin);
        if back == Crashed { return true; }
      }
      ghost var first, middle := history, tree;
      Yield();
      ghost var second := history;
      var gone := RemoveDirAll(temp);
      crashed := gone == Crashed;
      OnlyMore(first, second, history, {temp});
      OnlyTempKeeps(first, history, plugin);
      OnlyWider(first, history, {temp}, Three(plugin));
      KeepsMore(old(history), first, history, plugin);
      OnlyMore(old(history), first, history, Three(plugin));
    }

    /** Renames the new directory into place. */
    method Swap() returns (r: Outcome, commit: nat, placed: Node)
      requires Valid() && plugin !in tree
      modifies this`tree, this`clock, this`history, this`pending, this`ticks
      ensures Valid() && Only(old(history), history, Three(plugin)) && pending <= old(pending) && clock == old(clock) + 1
      ensures |old(history)| <= commit <= |history| && Keeps(old(history), history[..commit], plugin)
      ensures Steady(history, commit, |history|, plugin, Some(placed))
      ensures commit < |history| ==>
                && temp in old(tree) && Lessened(old(tree), map[temp := placed], temp)
                && (old(pending) == 0 ==> placed == old(tree)[temp])
                && (old(pending) > 0 && Greedy() && old(tree)[temp].Dir? ==> placed == Dir(map[]))
                && plugin in tree && tree[plugin] == placed && temp !in tree
      ensures commit == |history| ==> plugin !in tree && Lessened(old(tree), tree, temp)
      ensures r == Done ==> commit < |history|
      ensures r == Failed ==> commit == |history| && (old(pending) == 0 ==> tree == old(tree))
      ensures (old_ in tree <==> old_ in old(tree)) && (old_ in tree ==> tree[old_] == old(tree)[old_])
      ensures old(Calm()) && temp in old(tree) ==> r == weather(old(clock)).outcome
    {
      Yield();
      OnlyTempKeeps(old(history), history, plugin);
      OnlyWider(old(history), history, {temp}, Three(plugin));
      ghost var first := history;
      commit := |history|;
      placed := if temp in tree then tree[temp] else Dir(map[]);
      r := Rename(temp, plugin);
      OnlyWider(first, history, {temp, plugin}, Three(plugin));
      OnlyMore(old(history), first, history, Three(plugin));
      assert history[..commit] == first;
    }

    /** Renames the new directory into place; on failure the old one is put back. */
    method MoveIntoPlace() returns (r: Outcome, commit: nat, placed: Node)
      requires Valid() && plugin !in tree
      modifies this`tree, this`clock, this`history, this`pending, this`ticks
      ensures Valid() && Only(old(history), history, Three(plugin)) && pending <= old(pending)
      ensures |old(history)| <= commit <= |history| && Keeps(old(history), history[..commit], plugin)
      ensures Steady(history, commit, |history|, plugin, Some(placed))
      ensures commit < |history| ==>
                && temp in old(tree) && Lessened(old(tree), map[temp := placed], temp)
                && (old(pending) == 0 ==> placed == old(tree)[temp])
                && (old(pending) > 0 && Greedy() && old(tree)[temp].Dir? ==> placed == Dir(map[]))
                && plugin in tree && tree[plugin] == placed && temp !in tree
      ensures r == Done ==> commit < |history| && clock == old(clock) + 1
      ensures r == Done ==> (old_ in tree <==> old_ in old(tree)) && (old_ in tree ==> tree[old_] == old(tree)[old_])
      ensures old(Calm()) && temp in old(tree) && weather(old(clock)).outcome != Failed ==> r == weather(old(clock)).outcome
      // a failed swap leaves the plugin path empty exactly when there is nothing to put back
      // or putting it back fails as well, and the temp path as said above
      ensures r == Failed ==>
                && (plugin !in tree <==> old_ !in old(tree) || weather(old(clock) + 1).outcome == Failed)
                && TempLeft(old(pending), old(tree), DeleteStep(old(clock) + 1, old(tree)), tree)
      ensures old(pending) == 0 && temp in old(tree) && old(tree)[temp].Dir? && weather(old(clock)).outcome == Failed ==>
                commit == |history| && SwapFailed(weather, old(clock), plugin, old_ in old(tree), r, tree)
    {
      r, commit, placed := Swap();
      if r == Failed {
        ghost var first := history;
        assert history[..commit] == history;
        var crashed := RollBack();
        OnlyMore(old(history), first, history, Three(plugin));
        KeepsMore(old(history), first, history, plugin);
        commit := |history|;
        assert history[..commit] == history;
        if crashed { r := Crashed; }
      }
    }

    /** The swap and what comes after it. */
    method SwapAndClear() returns (r: Outcome, commit: nat, placed: Node)
      requires Valid() && plugin !in tree
      modifies this`tree, this`clock, this`history, this`pending, this`ticks
      ensures Valid() && Only(old(history), history, Three(plugin)) && pending <= old(pending)
      ensures |old(history)| <= commit <= |history| && Keeps(old(history), history[..commit], plugin)
      ensures Steady(history, commit, |history|, plugin, Some(placed))
      ensures commit < |history| ==>
                && temp in old(tree) && Lessened(old(tree), map[temp := placed], temp)
                && (old(pending) == 0 ==> placed == old(tree)[temp])
                && (old(pending) > 0 && Greedy() && old(tree)[temp].Dir? ==> placed == Dir(map[]))
      ensures r == Done ==>
                commit < |history| && plugin in tree && tree[plugin] == placed && temp !in tree && old_ !in tree
      ensures old(Calm()) && temp in old(tree) && IsDirAt(old(tree), old_) && Fair(old(clock)) ==> r == Done
      ensures old(pending) == 0 && temp in old(tree) && old(tree)[temp].Dir? ==>
                SwapDecides(weather, old(clock), plugin, Surviving(old(tree), plugin), r, commit < |history|, tree)
    {
      r, commit, placed := MoveIntoPlace();
      if r == Done && old_ in tree {
        ghost var first := history;
        r := RemoveOld();
        OnlyMore(old(history), first, history, Three(plugin));
        assert history[..commit] == first[..commit];
        SteadyLater(first, history, commit, plugin, Some(placed));
      }
    }

    /** Replaces the plugin directory.  Whatever happens, there is one moment, `commit`, up
        to which the version surviving is the one before the call and from which on it is
        what was put in place: exactly the new files if no earlier cleanup was going on
        when the call began, and some of them if one was. */
    method ReplacePluginDirectory(files: seq<(string, string)>) returns (r: Outcome, commit: nat, placed: map<string, string>)
      requires Valid()
      modifies this`tree, this`clock, this`history, this`pending, this`ticks
      ensures Valid() && Only(old(history), history, Three(plugin))
      ensures |old(history)| <= commit <= |history| && Keeps(old(history), history[..commit], plugin)
      ensures Steady(history, commit, |history|, plugin, Some(Dir(placed)))
      ensures Part(placed, Built(files)) && (old(pending) == 0 ==> placed == Built(files))
      // only a failed call leaves a cleanup that was not there before
      ensures pending > 0 ==> old(pending) > 0 || r == Failed
      ensures r == Done ==>
                && commit < |history|
                && plugin in tree && tree[plugin] == Dir(placed) && temp !in tree && old_ !in tree
      // it succeeds if no step fails and only directories are in its way
      ensures Fair(old(clock)) && old(Calm()) && Tidy(old(tree), plugin) ==> r == Done
      ensures r == Done ==> Tidy(tree, plugin)
      // cleanups that delete all there is leave nothing
      ensures r == Done && old(pending) > 0 && Greedy() ==> placed == map[]
      // with no cleanup going on and no plain file in its way the fates of its steps decide
      ensures old(pending) == 0 && Passable(old(tree), plugin) ==>
                Decided(weather, old(clock), plugin, files, old(tree), r, commit < |history|, tree, clock, pending)
      // a call that ends while writing leaves the plugin and the old path alone
      ensures old(pending) == 0 && WritingStops(old(clock), old(tree), files) ==>
                SameExcept(old(tree), tree, {temp}) && IsDirAt(tree, temp)
    {
      placed := Built(files);
      r := BuildAside(files);
      commit := |history|;
      assert history[..commit] == history;
      if r != Done {
        if old(pending) == 0 && Passable(old(tree), plugin) {
          EndedBeforeSwap(weather, old(clock), plugin, files, old(tree), r, tree, clock, pending);
        }
        return;
      }
      ghost var first, middle, swap := history, tree, clock;
      var node;
      r, commit, node := SwapAndClear();
      OnlyMore(old(history), first, history, Three(plugin));
      KeepsMore(old(history), first, history[..commit], plugin);
      if commit < |history| {
        placed := node.files;
        PartTrans(placed, TempFiles(middle), Built(files));
      }
      if old(pending) == 0 && Passable(old(tree), plugin) {
        SwapReached(weather, old(clock), plugin, files, old(tree), swap, r, commit < |history|, tree, clock);
      }
    }

    /** Deletes the old directory when the new one is in place. */
    method RemoveOld() returns (r: Outcome)
      requires Valid() && plugin in tree && temp !in tree && old_ in tree
      modifies this`tree, this`clock, this`history, this`pending, this`ticks
      ensures Valid() && Only(old(history), history, Three(plugin)) && Keeps(old(history), history, plugin)
      ensures pending <= old(pending)
      ensures plugin in tree && tree[plugin] == old(tree)[plugin] && temp !in tree && (r == Done ==> old_ !in tree)
      ensures if old(tree)[old_].Dir? then r == weather(old(clock)).outcome else r != Done
    {
      Yield();
      OnlyTempKeeps(old(history), history, plugin);
      OnlyWider(old(history), history, {temp}, Three(plugin));
      ghost var first := history;
      r := RemoveDirAll(old_);
      OnlyOldKeeps(first, history, plugin);
      OnlyWider(first, history, {old_}, Three(plugin));
      KeepsMore(old(history), first, history, plugin);
      OnlyMore(old(history), first, history, Three(plugin));
    }

    /** One of the steps that build the new directory is the first that does not succeed. */
    ghost predicate WritingStops(from: nat, t: Tree, files: seq<(string, string)>) {
      IsDirAt(t, temp) && !DoneFor(weather, from, PrepareSteps(t, plugin) + 3 * |files|)
    }

    /** The part of a call before the swap. */
    method BuildAside(files: seq<(string, string)>) returns (r: Outcome)
      requires Valid()
      modifies this`tree, this`clock, this`history, this`pending, this`ticks
      ensures Valid() && Only(old(history), history, Three(plugin)) && Keeps(old(history), history, plugin)
      ensures old(clock) <= clock && (pending > 0 ==> old(pending) > 0 || r == Failed)
      ensures r == Done ==>
                && pending <= old(pending) && plugin !in tree && IsDirAt(tree, temp) && Part(TempFiles(tree), Built(files))
                && (old(pending) == 0 ==> temp in tree && tree[temp] == Dir(Built(files)))
      ensures r == Done && old(Calm()) ==> pending == old(pending) && temp in tree
      ensures Fair(old(clock)) && old(Calm()) && Passable(old(tree), plugin) ==> r == Done
      ensures old(pending) == 0 && Passable(old(tree), plugin) ==>
                && Stepwise(weather, old(clock), StepsToSwap(old(tree), plugin, files), r, clock)
                && pending == if r == Failed && StartsCleanup(old(tree), plugin, files, clock - 1 - old(clock)) then 1 else 0
      ensures WritingStops(old(clock), old(tree), files) && old(pending) == 0 ==>
                SameExcept(old(tree), tree, {temp}) && IsDirAt(tree, temp)
    {
      r := WriteTemp(files);
      OnlyTempKeeps(old(history), history, plugin);
      OnlyLast(old(history), history, {temp});
      OnlyWider(old(history), history, {temp}, Three(plugin));
      if r != Done { return; }
      ghost var first, built := history, TempFiles(tree);
      r := MoveAside();
      KeepsMore(old(history), first, history, plugin);
      OnlyMore(old(history), first, history, Three(plugin));
      if r == Done { PartTrans(TempFiles(tree), built, Built(files)); }
    }
  }

  /** What one call did: it ran over the states `from..to` of the history, those up to
      `began`, in which it waited for its turn, included, and took the steps `clock..until`.
      `overtaken`: an earlier cleanup was going on when it began; `cleanups`: the number going
      on when it was over. */
  datatype Replacement = Replacement(files: seq<(string, string)>, overtaken: bool, placed: map<string, string>,
                                     result: Outcome, from: nat, began: nat, commit: nat, to: nat,
                                     before: Option<Node>, after: Option<Node>,
                                     clock: nat, until: nat, cleanups: nat)

  /** The fates of its steps decide what a call came to that was not overtaken. */
  ghost predicate DecidedIn(history: seq<Tree>, plugin: string, weather: nat -> Fate, c: Replacement)
    requires 1 <= c.began <= |history| && 1 <= c.to <= |history|
  {
    var t := history[c.began - 1];
    !c.overtaken && Passable(t, plugin) ==>
      Decided(weather, c.clock, plugin, c.files, t, c.result, c.commit < c.to, history[c.to - 1], c.until, c.cleanups)
  }

  /** The account given of a call is what the history shows.  That what was put in place
      stays as it is after the commit is known of an overtaken call only as far as the
      cleanup works on the temp path and not inside a directory renamed meanwhile. */
  ghost predicate Accounted(history: seq<Tree>, plugin: string, weather: nat -> Fate, c: Replacement) {
    var new_ := Some(Dir(c.placed));
    && 1 <= c.from <= c.began <= c.commit <= c.to <= |history|
    && DecidedIn(history, plugin, weather, c)
    // what is put in place is some of the new files, and all of them unless overtaken
    && Part(c.placed, Built(c.files)) && (!c.overtaken ==> c.placed == Built(c.files))
    // up to the commit the version before the call survives, from then on what was put in place
    && Steady(history, c.from, c.commit, plugin, c.before)
    && Steady(history, c.commit, c.to, plugin, new_)
    && c.after == (if c.commit < c.to then new_ else c.before)
    // success means: the new version in place, nothing left beside it
    && (c.result == Done ==>
          var t := history[c.to - 1];
          && c.after == new_
          && plugin in t && t[plugin] == Dir(c.placed)
          && TempOf(plugin) !in t && OldOf(plugin) !in t)
  }

  function EndOf(calls: seq<Replacement>): nat {
    if calls == [] then 1 else calls[|calls| - 1].to
  }

  function VersionAfter(calls: seq<Replacement>, start: Option<Node>): Option<Node> {
    if calls == [] then start else calls[|calls| - 1].after
  }

  /** The calls follow each other without a gap, from `start` on. */
  ghost predicate Chained(calls: seq<Replacement>, start: Option<Node>) {
    calls == [] ||
    var init, last := calls[..|calls| - 1], calls[|calls| - 1];
    && Chained(init, start) && last.from == EndOf(init) && last.before == VersionAfter(init, start)
    && last.clock == if init == [] then 0 else init[|init| - 1].until
  }

  lemma AccountedLater(history: seq<Tree>, later: seq<Tree>, plugin: string, weather: nat -> Fate, calls: seq<Replacement>)
    requires history <= later
    requires forall k :: 0 <= k < |calls| ==> Accounted(history, plugin, weather, calls[k])
    ensures forall k :: 0 <= k < |calls| ==> Accounted(later, plugin, weather, calls[k])
  {
    forall k | 0 <= k < |calls| ensures Accounted(later, plugin, weather, calls[k]) {
      assert Accounted(history, plugin, weather, calls[k]);
    }
  }

  /** Paths other than the plugin's three are as in `start`, in every state. */
  ghost predicate Untouched(history: seq<Tree>, start: Tree, plugin: string) {
    forall i :: 0 <= i < |history| ==> SameExcept(start, history[i], Three(plugin))
  }

  lemma UntouchedLater(was: seq<Tree>, history: seq<Tree>, start: Tree, plugin: string)
    requires Untouched(was, start, plugin) && Only(was, history, Three(plugin))
    ensures Untouched(history, start, plugin)
  {
    forall i | 0 <= i < |history| ensures SameExcept(start, history[i], Three(plugin)) {
      if i < |was| {
        assert history[i] == was[i];
      }
    }
  }

  /** The version is the one at the start or one that a call has put in place. */
  ghost predicate IsVersion(v: Option<Node>, calls: seq<Replacement>, start: Option<Node>) {
    v == start || exists k :: 0 <= k < |calls| && v == Some(Dir(calls[k].placed))
  }

  lemma {:induction false} EveryStateHoldsAVersion(history: seq<Tree>, plugin: string, weather: nat -> Fate, calls: seq<Replacement>,
                                                   start: Option<Node>, i: nat)
    requires i < |history| && start == Surviving(history[0], plugin)
    requires Chained(calls, start)
    requires i < EndOf(calls)
    requires forall k :: 0 <= k < |calls| ==> Accounted(history, plugin, weather, calls[k])
    ensures IsVersion(Surviving(history[i], plugin), calls, start)
    ensures IsVersion(VersionAfter(calls, start), calls, start)
  {
    if calls != [] {
      var last, init := calls[|calls| - 1], calls[..|calls| - 1];
      assert Accounted(history, plugin, weather, last);
      EveryStateHoldsAVersion(history, plugin, weather, init, start, if i < last.from then i else 0);
      assert forall v :: IsVersion(v, init, start) ==> IsVersion(v, calls, start) by {
        assert forall k :: 0 <= k < |init| ==> init[k] == calls[k];
      }
    }
  }

  /** The calls account for every state of the disk from `start` on. */
  ghost predicate AllAccounted(history: seq<Tree>, plugin: string, weather: nat -> Fate, start: Tree, calls: seq<Replacement>) {
    && history != [] && history[0] == start
    && |history| == EndOf(calls)
    && Surviving(Last(history), plugin) == VersionAfter(calls, Surviving(start, plugin))
    && Chained(calls, Surviving(start, plugin))
    && (forall k :: 0 <= k < |calls| ==> Accounted(history, plugin, weather, calls[k]))
    && Untouched(history, start, plugin)
  }

  lemma AccountedMore(was: seq<Tree>, history: seq<Tree>, plugin: string, weather: nat -> Fate, start: Tree, calls: seq<Replacement>, call: Replacement)
    requires AllAccounted(was, plugin, weather, start, calls) && was <= history
    requires Untouched(history, start, plugin) && Accounted(history, plugin, weather, call)
    requires call.from == |was| && call.to == |history|
    requires call.before == Surviving(Last(was), plugin) && call.after == Surviving(Last(history), plugin)
    requires call.clock == if calls == [] then 0 else calls[|calls| - 1].until
    ensures AllAccounted(history, plugin, weather, start, calls + [call])
  {
    assert (calls + [call])[..|calls|] == calls;
    AccountedLater(was, history, plugin, weather, calls);
  }

  /** `waits`: the cleanups still going on are over before the call. */
  datatype Request = Request(files: seq<(string, string)>, waits: bool)

  /** Waiting keeps the surviving version. */
  method WaitForCleanups(disk: Disk, waits: bool)
    requires disk.Valid()
    modifies disk
    ensures disk.Valid() && (waits ==> disk.pending == 0) && disk.pending <= old(disk.pending) && disk.clock == old(disk.clock)
    ensures Tidy(old(disk.tree), disk.plugin) ==> Tidy(disk.tree, disk.plugin)
    ensures Only(old(disk.history), disk.history, Three(disk.plugin)) && Keeps(old(disk.history), disk.history, disk.plugin)
  {
    if waits {
      disk.Settle();
    } else {
      disk.Yield();
    }
    OnlyTempKeeps(old(disk.history), disk.history, disk.plugin);
    OnlyLast(old(disk.history), disk.history, {disk.temp});
    OnlyWider(old(disk.history), disk.history, {disk.temp}, Three(disk.plugin));
  }

  ghost predicate AllWait(requests: seq<Request>) {
    forall k :: 0 <= k < |requests| ==> requests[k].waits
  }

  ghost predicate AllDone(calls: seq<Replacement>) {
    forall k :: 0 <= k < |calls| ==> calls[k].result == Done
  }

  /** A cleanup may still be going on after these calls: one of them failed, and since then
      none crashed and none waited. */
  ghost predicate MayBePending(calls: seq<Replacement>, requests: seq<Request>)
    requires |calls| <= |requests|
  {
    calls != [] &&
    var n := |calls| - 1;
    || calls[n].result == Failed
    || (calls[n].result != Crashed && !requests[n].waits && MayBePending(calls[..n], requests))
  }

  lemma AllHoldAVersion(history: seq<Tree>, plugin: string, weather: nat -> Fate, start: Tree, calls: seq<Replacement>)
    requires AllAccounted(history, plugin, weather, start, calls)
    ensures forall i :: 0 <= i < |history| ==> IsVersion(Surviving(history[i], plugin), calls, Surviving(start, plugin))
  {
    forall i | 0 <= i < |history| ensures IsVersion(Surviving(history[i], plugin), calls, Surviving(start, plugin)) {
      EveryStateHoldsAVersion(history, plugin, weather, calls, Surviving(start, plugin), i);
    }
  }

  /** The call is for the files requested, and is overtaken only if it did not wait and a
      cleanup may still have been going on. */
  ghost predicate Answer(calls: seq<Replacement>, requests: seq<Request>, k: nat)
    requires k < |calls| <= |requests|
  {
    && calls[k].files == requests[k].files
    && (calls[k].overtaken ==> !requests[k].waits && MayBePending(calls[..k], requests))
  }

  ghost predicate Answers(calls: seq<Replacement>, requests: seq<Request>) {
    |calls| <= |requests| && forall k :: 0 <= k < |calls| ==> Answer(calls, requests, k)
  }

  lemma AnswersMore(calls: seq<Replacement>, requests: seq<Request>, call: Replacement)
    requires Answers(calls, requests) && |calls| < |requests|
    requires call.files == requests[|calls|].files
    requires call.overtaken ==> !requests[|calls|].waits && MayBePending(calls, requests)
    ensures Answers(calls + [call], requests)
  {
    var more := calls + [call];
    forall k | 0 <= k < |more| ensures Answer(more, requests, k) {
      assert more[..k] == calls[..k];
      if k < |calls| {
        assert Answer(calls, requests, k);
      } else {
        assert calls[..k] == calls;
      }
    }
  }

  lemma PendingMore(calls: seq<Replacement>, requests: seq<Request>, call: Replacement)
    requires |calls| < |requests|
    ensures MayBePending(calls + [call], requests) <==>
            || call.result == Failed
            || (call.result != Crashed && !requests[|calls|].waits && MayBePending(calls, requests))
  {
    assert (calls + [call])[..|calls|] == calls;
  }

  /** From the moment it began the call did this to the history. */
  ghost predicate Ran(began: seq<Tree>, history: seq<Tree>, plugin: string, weather: nat -> Fate, c: Replacement) {
    && Only(began, history, Three(plugin))
    && c.began == |began| <= c.commit <= c.to == |history| && Keeps(began, history[..c.commit], plugin)
    && DecidedIn(history, plugin, weather, c)
    && Steady(history, c.commit, c.to, plugin, Some(Dir(c.placed)))
    && c.before == Surviving(Last(began), plugin) && c.after == (if c.commit < c.to then Some(Dir(c.placed)) else c.before)
    && Part(c.placed, Built(c.files)) && (!c.overtaken ==> c.placed == Built(c.files))
    && (c.result == Done ==>
          && c.commit < |history| && plugin in Last(history) && Last(history)[plugin] == Dir(c.placed)
          && TempOf(plugin) !in Last(history) && OldOf(plugin) !in Last(history))
  }

  /** The call waited and ran. */
  ghost predicate Describes(was: seq<Tree>, began: seq<Tree>, history: seq<Tree>, plugin: string, weather: nat -> Fate, c: Replacement) {
    && Only(was, began, Three(plugin)) && Keeps(was, began, plugin)
    && c.from == |was| && Ran(began, history, plugin, weather, c)
  }

  /** Replaces the directory. */
  method RunCall(disk: Disk, files: seq<(string, string)>, from: nat) returns (call: Replacement)
    requires disk.Valid()
    modifies disk
    ensures disk.Valid() && call.files == files && call.from == from
    ensures call.overtaken ==> old(disk.pending) > 0
    ensures disk.pending > 0 ==> call.result == Failed || old(disk.pending) > 0
    ensures call.cleanups == if call.result == Crashed then 0 else disk.pending
    ensures disk.Fair(0) && old(disk.pending) == 0 && Tidy(old(disk.tree), disk.plugin) ==>
              call.result == Done && Tidy(disk.tree, disk.plugin)
    ensures Ran(old(disk.history), disk.history, disk.plugin, disk.weather, call)
    ensures call.clock == old(disk.clock) && call.until == disk.clock
  {
    var began, clock, before, overtaken := |disk.history|, disk.clock, Surviving(disk.tree, disk.plugin), disk.pending > 0;
    var r, commit, placed := disk.ReplacePluginDirectory(files);
    call := Replacement(files, overtaken, placed, r, from, began, commit, |disk.history|, before,
                        if commit < |disk.history| then Some(Dir(placed)) else before,
                        clock, disk.clock, if r == Crashed then 0 else disk.pending);
    CallRan(old(disk.history), disk.history, disk.plugin, disk.weather, call);
  }

  lemma CallRan(began: seq<Tree>, history: seq<Tree>, plugin: string, weather: nat -> Fate, c: Replacement)
    requires Only(began, history, Three(plugin))
    requires c.began == |began| <= c.commit <= c.to == |history| && Keeps(began, history[..c.commit], plugin)
    requires Steady(history, c.commit, c.to, plugin, Some(Dir(c.placed)))
    requires c.before == Surviving(Last(began), plugin) && c.after == if c.commit < c.to then Some(Dir(c.placed)) else c.before
    requires Part(c.placed, Built(c.files)) && (!c.overtaken ==> c.placed == Built(c.files))
    requires !c.overtaken && Passable(Last(began), plugin) ==>
               Decided(weather, c.clock, plugin, c.files, Last(began), c.result, c.commit < c.to, Last(history), c.until, c.cleanups)
    requires c.result == Done ==>
               && c.commit < |history| && plugin in Last(history) && Last(history)[plugin] == Dir(c.placed)
               && TempOf(plugin) !in Last(history) && OldOf(plugin) !in Last(history)
    ensures Ran(began, history, plugin, weather, c)
  {
    assert history[c.began - 1] == Last(began);
  }

  /** Waits, if asked to, and replaces the directory; after a crash the process is restarted. */
  method ReplaceOnce(disk: Disk, request: Request) returns (call: Replacement, ghost began: seq<Tree>)
    requires disk.Valid()
    modifies disk
    ensures disk.Valid() && call.files == request.files
    ensures call.overtaken ==> !request.waits && old(disk.pending) > 0
    ensures disk.pending > 0 ==> call.result == Failed || (call.result != Crashed && !request.waits && old(disk.pending) > 0)
    ensures disk.Fair(0) && request.waits && Tidy(old(disk.tree), disk.plugin) ==>
              call.result == Done && Tidy(disk.tree, disk.plugin)
    ensures Describes(old(disk.history), began, disk.history, disk.plugin, disk.weather, call)
    ensures call.clock == old(disk.clock) && call.until == disk.clock
  {
    var from := |disk.history|;
    WaitForCleanups(disk, request.waits);
    began := disk.history;
    call := RunCall(disk, request.files, from);
    if call.result == Crashed { disk.Restart(); }
  }

  /** What holds after the calls, one for each of the first requests. */
  ghost predicate Sofar(disk: Disk, start: Tree, calls: seq<Replacement>, requests: seq<Request>)
    reads disk
  {
    && disk.Valid() && AllAccounted(disk.history, disk.plugin, disk.weather, start, calls)
    && disk.clock == (if calls == [] then 0 else calls[|calls| - 1].until)
    && Answers(calls, requests) && (disk.pending > 0 ==> MayBePending(calls, requests))
    && (disk.Fair(0) && Tidy(start, disk.plugin) && AllWait(requests) ==> Tidy(disk.tree, disk.plugin) && AllDone(calls))
  }

  method ReplaceNext(disk: Disk, request: Request, ghost start: Tree, ghost calls: seq<Replacement>, ghost requests: seq<Request>)
    returns (call: Replacement)
    requires |calls| < |requests| && request == requests[|calls|]
    requires Sofar(disk, start, calls, requests)
    modifies disk
    ensures Sofar(disk, start, calls + [call], requests)
  {
    ghost var began;
    call, began := ReplaceOnce(disk, request);
    CallExtends(old(disk.history), began, disk.history, disk.plugin, disk.weather, start, calls, call);
    AnswersMore(calls, requests, call);
    PendingMore(calls, requests, call);
  }

  lemma CallExtends(was: seq<Tree>, began: seq<Tree>, history: seq<Tree>, plugin: string, weather: nat -> Fate, start: Tree,
                    calls: seq<Replacement>, c: Replacement)
    requires AllAccounted(was, plugin, weather, start, calls) && Describes(was, began, history, plugin, weather, c)
    requires c.clock == if calls == [] then 0 else calls[|calls| - 1].until
    ensures AllAccounted(history, plugin, weather, start, calls + [c])
  {
    KeepsMore(was, began, history[..c.commit], plugin);
    OnlyMore(was, began, history, Three(plugin));
    CallIsAccounted(was, history, plugin, weather, c);
    UntouchedLater(was, history, start, plugin);
    AccountedMore(was, history, plugin, weather, start, calls, c);
  }

  lemma CallIsAccounted(was: seq<Tree>, history: seq<Tree>, plugin: string, weather: nat -> Fate, c: Replacement)
    requires c.from == |was| <= c.began <= c.commit <= c.to == |history|
    requires was != [] && DecidedIn(history, plugin, weather, c)
    requires Keeps(was, history[..c.commit], plugin) && Steady(history, c.commit, c.to, plugin, Some(Dir(c.placed)))
    requires c.before == Surviving(Last(was), plugin) && c.after == if c.commit < c.to then Some(Dir(c.placed)) else c.before
    requires Part(c.placed, Built(c.files)) && (!c.overtaken ==> c.placed == Built(c.files))
    requires c.result == Done ==>
               && c.commit < |history| && plugin in Last(history) && Last(history)[plugin] == Dir(c.placed)
               && TempOf(plugin) !in Last(history) && OldOf(plugin) !in Last(history)
    ensures Accounted(history, plugin, weather, c) && Surviving(Last(history), plugin) == c.after
  {
    forall i | c.from <= i < c.commit ensures Surviving(history[i], plugin) == c.before {
      assert history[..c.commit][i] == history[i];
    }
    if c.commit == |history| {
      assert history[..c.commit] == history;
    }
  }

  /**
   Any number of replacements, one after the other, each with any of its steps failing
   or the process crashing in it and being restarted.  A call that no earlier cleanup
   overtakes puts exactly its files in place; one that is overtaken may put some of them.
   */
  method ReplaceRepeatedly(plugin: string, start: Tree, requests: seq<Request>, weather: nat -> Fate, meddling: nat -> Meddling)
    returns (calls: seq<Replacement>, history: seq<Tree>)
    ensures |calls| == |requests|
    ensures Answers(calls, requests) && AllAccounted(history, plugin, weather, start, calls)
    // if no step fails, every call waits and only directories are in the way, all succeed
    ensures (forall i: nat :: weather(i).outcome == Done) && Tidy(start, plugin) && AllWait(requests) ==> AllDone(calls)
    // in every state some version survives that was there or was put in place
    ensures forall i :: 0 <= i < |history| ==> IsVersion(Surviving(history[i], plugin), calls, Surviving(start, plugin))
  {
    var disk := new Disk(plugin, start, weather, meddling);
    calls := [];
    for n := 0 to |requests|
      invariant fresh(disk) && disk.plugin == plugin && disk.weather == weather
      invariant |calls| == n && Sofar(disk, start, calls, requests)
    {
      var call := ReplaceNext(disk, requests[n], start, calls, requests);
      calls := calls + [call];
    }
    history := disk.history;
    AllHoldAVersion(history, plugin, weather, start, calls);
  }

  /**
   Waiting is needed, for all files: a call that fails while writing leaves a cleanup
   behind, and if that one overtakes the next call, the next call reports success with
   none of the files in place.
   */
  method Overtaken(plugin: string, start: Tree, files: seq<(string, string)>)
    returns (first: Outcome, second: Outcome, tree: Tree)
    requires files != [] && TempOf(plugin) !in start && IsDirAt(start, plugin) && IsDirAt(start, OldOf(plugin))
    ensures first == Failed && second == Done
    ensures plugin in tree && tree[plugin] == Dir(map[]) && tree[plugin] != Dir(Built(files))
    ensures OldOf(plugin) !in tree
  {
    var weather := (i: nat) => Fate(if i == 2 then Failed else Done, false, {}, "");
    var disk := new Disk(plugin, start, weather, (i: nat) => Meddling({}, false, false));
    var commit, placed;
    first, commit, placed := disk.ReplacePluginDirectory(files);
    assert StopsAfter(disk.weather, 0, 2) && StartsCleanup(start, plugin, files, 2);
    second, commit, placed := disk.ReplacePluginDirectory(files);
    tree := disk.tree;
    assert files[|files| - 1].0 in Built(files);
  }
}
