/**
 The catalog's general purpose repository: resources in insertion order under an
 identifier, a bidirectional map between identifiers and names, and the next
 identifier to hand out.
 */
module CatalogRepository {
  import opened Basics

  type Id = nat

  // ----- the bidirectional map ------------------------------------------------------

  datatype BiMap<R> = BiMap(fwd: map<Id, R>, bwd: map<R, Id>)

  ghost predicate Inverse<R>(m: BiMap<R>) {
    && (forall l :: l in m.fwd ==> m.fwd[l] in m.bwd && m.bwd[m.fwd[l]] == l)
    && (forall r :: r in m.bwd ==> m.bwd[r] in m.fwd && m.fwd[m.bwd[r]] == r)
  }

  function RemoveLeft<R>(m: BiMap<R>, l: Id): (m': BiMap<R>)
    ensures Inverse(m) ==> Inverse(m')
    ensures m'.fwd == m.fwd - {l}
  {
    if l in m.fwd then BiMap(m.fwd - {l}, m.bwd - {m.fwd[l]}) else m
  }

  function RemoveRight<R>(m: BiMap<R>, r: R): (m': BiMap<R>)
    ensures Inverse(m) ==> Inverse(m')
    ensures m'.bwd == m.bwd - {r}
  {
    if r in m.bwd then BiMap(m.fwd - {m.bwd[r]}, m.bwd - {r}) else m
  }

  /** Binds the two, displacing what either was bound to. */
  function Bind<R>(m: BiMap<R>, l: Id, r: R): (m': BiMap<R>)
    requires Inverse(m)
    ensures Inverse(m')
    ensures forall x :: x in m'.fwd <==> x == l || (x in m.fwd && m.fwd[x] != r)
    ensures forall x :: x in m'.fwd ==> m'.fwd[x] == if x == l then r else m.fwd[x]
  {
    var free := RemoveRight(RemoveLeft(m, l), r);
    BiMap(free.fwd[l := r], free.bwd[r := l])
  }

  // ----- resources in insertion order -----------------------------------------------

  datatype Item<B> = Item(name: string, body: B)

  type Items<B> = seq<(Id, Item<B>)>

  function Find<B>(s: Items<B>, id: Id): (r: Option<Item<B>>)
    ensures r.None? <==> forall i :: 0 <= i < |s| ==> s[i].0 != id
  {
    if s == [] then None else if s[0].0 == id then Some(s[0].1) else Find(s[1..], id)
  }

  predicate Has<B>(s: Items<B>, id: Id) { Find(s, id).Some? }

  /** A new identifier goes to the end, a known one keeps its place. */
  function Store<B>(s: Items<B>, id: Id, item: Item<B>): Items<B> {
    if s == [] then [(id, item)]
    else if s[0].0 == id then [(id, item)] + s[1..]
    else [s[0]] + Store(s[1..], id, item)
  }

  function Drop<B>(s: Items<B>, id: Id): Items<B> {
    if s == [] then [] else if s[0].0 == id then s[1..] else [s[0]] + Drop(s[1..], id)
  }

  ghost predicate DistinctIds<B>(s: Items<B>) {
    forall i, j :: 0 <= i < j < |s| ==> s[i].0 != s[j].0
  }

  lemma {:induction false} StoreSetsOne<B>(s: Items<B>, id: Id, item: Item<B>, x: Id)
    ensures Find(Store(s, id, item), x) == if x == id then Some(item) else Find(s, x)
  {
    if s != [] && s[0].0 != id {
      StoreSetsOne(s[1..], id, item, x);
    }
  }

  lemma {:induction false} DropRemovesOne<B>(s: Items<B>, id: Id, x: Id)
    requires DistinctIds(s)
    ensures Find(Drop(s, id), x) == if x == id then None else Find(s, x)
  {
    if s != [] {
      if s[0].0 == id {
        assert Find(s[1..], id) == None;
      } else {
        DropRemovesOne(s[1..], id, x);
      }
    }
  }

  lemma {:induction false} StoreKeepsDistinct<B>(s: Items<B>, id: Id, item: Item<B>)
    requires DistinctIds(s)
    ensures DistinctIds(Store(s, id, item))
  {
    if s != [] && s[0].0 != id {
      var tail := Store(s[1..], id, item);
      StoreKeepsDistinct(s[1..], id, item);
      StoreSetsOne(s[1..], id, item, s[0].0);
      assert Find(s[1..], s[0].0) == None;
      assert Find(tail, s[0].0) == None;
    }
  }

  lemma {:induction false} DropKeepsDistinct<B>(s: Items<B>, id: Id)
    requires DistinctIds(s)
    ensures DistinctIds(Drop(s, id))
  {
    if s != [] && s[0].0 != id {
      DropKeepsDistinct(s[1..], id);
      assert Find(s[1..], s[0].0) == None;
      DropRemovesOne(s[1..], id, s[0].0);
      assert Find(Drop(s[1..], id), s[0].0) == None;
    }
  }

  /** The first resource of that name, by looking at all of them. */
  function Scan<B>(s: Items<B>, name: string): (r: Option<(Id, Item<B>)>)
    ensures r.None? <==> forall i :: 0 <= i < |s| ==> s[i].1.name != name
    ensures r.Some? ==> r.value in s && r.value.1.name == name
  {
    if s == [] then None else if s[0].1.name == name then Some(s[0]) else Scan(s[1..], name)
  }

  lemma {:induction false} FindAt<B>(s: Items<B>, i: nat)
    requires DistinctIds(s) && i < |s|
    ensures Find(s, s[i].0) == Some(s[i].1)
  {
    if i > 0 {
      assert s[i] == s[1..][i - 1];
      FindAt(s[1..], i - 1);
    }
  }

  lemma {:induction false} FoundIsIn<B>(s: Items<B>, id: Id)
    requires Has(s, id)
    ensures (id, Find(s, id).value) in s
  {
    if s[0].0 != id {
      FoundIsIn(s[1..], id);
    }
  }

  // ----- the repository -------------------------------------------------------------

  datatype Result = Ok | AlreadyExists | NotFound | Panicked

  /** The next identifier after one has been inserted: beyond it, unless it is the largest. */
  function NextAfter(next: Id, id: Id, max: Id): Id {
    if next <= id < max then id + 1 else next
  }

  /** The name map holds exactly the names of the stored resources. */
  ghost predicate Agree<B>(names: BiMap<string>, s: Items<B>) {
    forall id :: AgreeAt(names, s, id)
  }

  ghost predicate AgreeAt<B>(names: BiMap<string>, s: Items<B>, id: Id) {
    (id in names.fwd <==> Has(s, id)) && (id in names.fwd ==> names.fwd[id] == Find(s, id).value.name)
  }

  /** Storing a resource and binding its name keeps the agreement exactly if the name is
      free or already belongs to this identifier. */
  lemma AgreeAfterStore<B>(names: BiMap<string>, s: Items<B>, id: Id, item: Item<B>)
    requires Inverse(names) && Agree(names, s)
    ensures Agree(Bind(names, id, item.name), Store(s, id, item)) <==> item.name !in names.bwd || names.bwd[item.name] == id
  {
    var names', s' := Bind(names, id, item.name), Store(s, id, item);
    if item.name in names.bwd && names.bwd[item.name] != id {
      var other := names.bwd[item.name];
      assert AgreeAt(names, s, other);
      StoreSetsOne(s, id, item, other);
      assert !AgreeAt(names', s', other);
    } else {
      forall x: Id ensures AgreeAt(names', s', x) {
        assert AgreeAt(names, s, x);
        StoreSetsOne(s, id, item, x);
      }
    }
  }

  /** The two maps and the next identifier, as values. */
  datatype State<B> = State(items: Items<B>, names: BiMap<string>, next: Id)

  function Start<B>(): State<B> { State([], BiMap(map[], map[]), 0) }

  /** The maps disagree on whether the identifier is there. */
  predicate Divided<B>(st: State<B>, id: Id) {
    (id in st.names.fwd) != Has(st.items, id)
  }

  class Repository<B> {
    const max: Id // the largest value of the identifier type
    var repo: Items<B>
    var names: BiMap<string>
    var nextId: Id

    /** What holds whatever calls are made. */
    ghost predicate Sane()
      reads this
    {
      DistinctIds(repo) && Inverse(names) && nextId <= max
    }

    /** The stored resources and the name map agree. */
    ghost predicate Consistent()
      reads this
    {
      Agree(names, repo)
    }

    ghost function View(): State<B>
      reads this
    {
      State(repo, names, nextId)
    }

    constructor (max: Id)
      ensures Sane() && Consistent() && this.max == max && View() == Start()
    {
      this.max := max;
      repo, names, nextId := [], BiMap(map[], map[]), 0;
    }

    /** Hands out the next identifier; `None` stands for the overflow panic. */
    method GetAndIncrementNextId() returns (r: Option<Id>)
      requires Sane()
      modifies this`nextId
      ensures Sane()
      ensures r.None? <==> old(nextId) == max
      ensures r.Some? ==> r.value == old(nextId) && nextId == old(nextId) + 1
      ensures r.None? ==> nextId == old(nextId)
    {
      if nextId == max { return None; }
      r := Some(nextId);
      nextId := nextId + 1;
    }

    /** `None` stands for the failed assertion that both maps agree on the identifier. */
    function IdExists(id: Id): (r: Option<bool>)
      reads this
      ensures Consistent() ==> r == Some(Has(repo, id))
    {
      assert Consistent() ==> AgreeAt(names, repo, id);
      if (id in names.fwd) == Has(repo, id) then Some(Has(repo, id)) else None
    }

    method Insert(id: Id, item: Item<B>) returns (r: Result)
      requires Sane() && id <= max
      modifies this
      ensures Sane()
      ensures r == Ok ==> nextId == NextAfter(old(nextId), id, max)
      ensures r != Ok ==> repo == old(repo) && names == old(names) && nextId == old(nextId)
      ensures r == Ok ==> repo == Store(old(repo), id, item) && names == Bind(old(names), id, item.name)
      ensures r == Panicked <==> Divided(old(View()), id)
      ensures r == AlreadyExists <==> !Divided(old(View()), id) && old(Has(repo, id)) && item.name in old(names).bwd
      ensures r == Panicked ==> !old(Consistent())
      ensures old(Consistent()) ==> (r == AlreadyExists <==> old(Has(repo, id)) && item.name in old(names).bwd)
      ensures r == Ok && old(Consistent()) ==>
                (Consistent() <==> item.name !in old(names).bwd || old(names).bwd[item.name] == id)
      ensures r != NotFound
    {
      var exists_ := IdExists(id);
      if exists_.None? { return Panicked; }
      if exists_.value && item.name in names.bwd { return AlreadyExists; }
      Overwrite(id, item);
      if nextId <= id && id < max {
        nextId := id + 1;
      }
      r := Ok;
    }

    method Update(id: Id, item: Item<B>) returns (r: Result)
      requires Sane()
      modifies this`repo, this`names
      ensures Sane()
      ensures r != Ok ==> repo == old(repo) && names == old(names)
      ensures r == Ok ==> repo == Store(old(repo), id, item) && names == Bind(old(names), id, item.name)
      ensures r == Panicked <==> Divided(old(View()), id)
      ensures r == NotFound <==> !Divided(old(View()), id) && !old(Has(repo, id))
      ensures r == Panicked ==> !old(Consistent())
      ensures old(Consistent()) ==> (r == NotFound <==> !old(Has(repo, id)))
      ensures r == Ok && old(Consistent()) ==>
                (Consistent() <==> item.name !in old(names).bwd || old(names).bwd[item.name] == id)
      ensures r != AlreadyExists
    {
      var exists_ := IdExists(id);
      if exists_.None? { return Panicked; }
      if !exists_.value { return NotFound; }
      Overwrite(id, item);
      r := Ok;
    }

    /** The two writes common to insert and update.  They keep the agreement exactly if
        the name is free or already belongs to this identifier. */
    method Overwrite(id: Id, item: Item<B>)
      requires Sane()
      modifies this`repo, this`names
      ensures Sane()
      ensures repo == Store(old(repo), id, item) && names == Bind(old(names), id, item.name)
      ensures old(Consistent()) ==>
                (Consistent() <==> item.name !in old(names).bwd || old(names).bwd[item.name] == id)
    {
      if Agree(names, repo) {
        AgreeAfterStore(names, repo, id, item);
      }
      StoreKeepsDistinct(repo, id, item);
      names := Bind(names, id, item.name);
      repo := Store(repo, id, item);
    }

    method Remove(id: Id)
      requires Sane()
      modifies this`repo, this`names
      ensures Sane()
      ensures repo == Drop(old(repo), id) && names == RemoveLeft(old(names), id)
      ensures old(Consistent()) ==> Consistent()
    {
      ghost var was, had := repo, names;
      names := RemoveLeft(names, id);
      repo := Drop(repo, id);
      DropKeepsDistinct(was, id);
      forall x: Id ensures AgreeAt(had, was, x) ==> AgreeAt(names, repo, x) {
        DropRemovesOne(was, id, x);
      }
    }

    function NameToId(name: string): Option<Id>
      reads this
    {
      if name in names.bwd then Some(names.bwd[name]) else None
    }

    function GetByName(name: string): Option<Item<B>>
      reads this
    {
      if name in names.bwd then Find(repo, names.bwd[name]) else None
    }

    /** In an agreeing repository the lookup through the name map finds what a look at
        every resource finds, and no two resources share a name. */
    lemma LookupEqualsScan(name: string)
      requires Sane() && Consistent()
      ensures var s := Scan(repo, name);
              && (s.None? <==> GetByName(name).None?)
              && (s.None? <==> NameToId(name).None?)
              && (s.Some? ==> NameToId(name) == Some(s.value.0) && GetByName(name) == Some(s.value.1))
      ensures forall i, j :: 0 <= i < |repo| && 0 <= j < |repo| && repo[i].1.name == repo[j].1.name ==> i == j
    {
      forall i | 0 <= i < |repo| ensures names.bwd.Keys >= {repo[i].1.name} && names.bwd[repo[i].1.name] == repo[i].0 {
        FindAt(repo, i);
        assert AgreeAt(names, repo, repo[i].0);
      }
      if name in names.bwd {
        var id := names.bwd[name];
        assert AgreeAt(names, repo, id);
        FoundIsIn(repo, id);
        var i :| 0 <= i < |repo| && repo[i] == (id, Find(repo, id).value);
      }
      if Scan(repo, name).Some? {
        var i :| 0 <= i < |repo| && repo[i] == Scan(repo, name).value;
        FindAt(repo, i);
      }
    }
  }

  // ----- whole runs -----------------------------------------------------------------

  datatype Op<B> =
    | Allocate
    | InsertItem(id: Id, item: Item<B>)
    | UpdateItem(id: Id, item: Item<B>)
    | RemoveItem(id: Id)
    | LookupName(name: string)

  datatype Event<B> =
    | Allocated(id: Id)
    | Inserted(id: Id)
    | Refused(why: Result)
    | Looked(found: Option<Item<B>>)
    | Nothing

  /** No identifier handed out was handed out or inserted before. */
  ghost predicate FreshAllocations<B>(log: seq<Event<B>>) {
    forall i, j :: 0 <= i < j < |log| && log[j].Allocated? ==>
      log[i] != Allocated(log[j].id) && log[i] != Inserted(log[j].id)
  }

  /** The plain list that a run leaves, resources named by looking at all of them. */
  function ListStep<B>(s: Items<B>, op: Op<B>): Items<B> {
    match op
    case Allocate => s
    case InsertItem(id, item) => if Has(s, id) && Scan(s, item.name).Some? then s else Store(s, id, item)
    case UpdateItem(id, item) => if Has(s, id) then Store(s, id, item) else s
    case RemoveItem(id) => Drop(s, id)
    case LookupName(_) => s
  }

  function ListRun<B>(ops: seq<Op<B>>): Items<B> {
    if ops == [] then [] else ListStep(ListRun(ops[..|ops| - 1]), ops[|ops| - 1])
  }

  /** A write that goes through does not take a name from another identifier. */
  predicate Admissible<B>(s: Items<B>, op: Op<B>) {
    match op
    case InsertItem(id, item) => Has(s, id) || Scan(s, item.name).None?
    case UpdateItem(id, item) => !Has(s, id) || Scan(s, item.name).None? || Scan(s, item.name).value.0 == id
    case _ => true
  }

  ghost predicate AllAdmissible<B>(ops: seq<Op<B>>) {
    forall n :: 0 <= n < |ops| ==> Admissible(ListRun(ops[..n]), ops[n])
  }

  /** The next identifier, from the operations that went through. */
  function NextStep<B>(s: Items<B>, next: Id, max: Id, op: Op<B>): Id {
    match op
    case Allocate => if next == max then next else next + 1
    case InsertItem(id, item) => if Has(s, id) && Scan(s, item.name).Some? then next else NextAfter(next, id, max)
    case _ => next
  }

  function NextRun<B>(ops: seq<Op<B>>, max: Id): Id {
    if ops == [] then 0
    else
      var before := ops[..|ops| - 1];
      NextStep(ListRun(before), NextRun(before, max), max, ops[|ops| - 1])
  }

  /** What the plain list and the next identifier answer to an operation. */
  function ListAnswer<B>(s: Items<B>, next: Id, max: Id, op: Op<B>): Event<B> {
    match op
    case Allocate => if next == max then Refused(Panicked) else Allocated(next)
    case InsertItem(id, item) => if Has(s, id) && Scan(s, item.name).Some? then Refused(AlreadyExists) else Inserted(id)
    case UpdateItem(id, _) => if Has(s, id) then Nothing else Refused(NotFound)
    case RemoveItem(_) => Nothing
    case LookupName(name) => Looked(if Scan(s, name).Some? then Some(Scan(s, name).value.1) else None)
  }

  /** What an operation answers in any state, and what it leaves. */
  function StateAnswer<B>(st: State<B>, max: Id, op: Op<B>): Event<B> {
    match op
    case Allocate => if st.next == max then Refused(Panicked) else Allocated(st.next)
    case InsertItem(id, item) =>
      if Divided(st, id) then Refused(Panicked)
      else if Has(st.items, id) && item.name in st.names.bwd then Refused(AlreadyExists)
      else Inserted(id)
    case UpdateItem(id, item) =>
      if Divided(st, id) then Refused(Panicked) else if Has(st.items, id) then Nothing else Refused(NotFound)
    case RemoveItem(_) => Nothing
    case LookupName(name) => Looked(if name in st.names.bwd then Find(st.items, st.names.bwd[name]) else None)
  }

  function StateStep<B>(st: State<B>, max: Id, op: Op<B>): (st': State<B>)
    requires Inverse(st.names)
    ensures Inverse(st'.names)
  {
    if StateAnswer(st, max, op).Refused? then st
    else match op
      case Allocate => st.(next := st.next + 1)
      case InsertItem(id, item) =>
        State(Store(st.items, id, item), Bind(st.names, id, item.name), NextAfter(st.next, id, max))
      case UpdateItem(id, item) => State(Store(st.items, id, item), Bind(st.names, id, item.name), st.next)
      case RemoveItem(id) => State(Drop(st.items, id), RemoveLeft(st.names, id), st.next)
      case LookupName(_) => st
  }

  function StateRun<B>(ops: seq<Op<B>>, max: Id): (st: State<B>)
    ensures Inverse(st.names)
  {
    if ops == [] then Start() else StateStep(StateRun(ops[..|ops| - 1], max), max, ops[|ops| - 1])
  }

  /** What one operation does: identifiers handed out are always new, and in a repository
      that agrees with a plain list an admissible operation does what it does to the list. */
  ghost predicate Behaves<B>(agreed: bool, s: Items<B>, next: Id, max: Id, op: Op<B>, e: Event<B>,
                             agrees: bool, s': Items<B>, next': Id) {
    && next <= next'
    && (e.Allocated? ==> next == e.id < next' && e.id < max)
    && (e.Inserted? ==> e.id < next' || e.id == max)
    && (agreed && Admissible(s, op) ==>
          agrees && s' == ListStep(s, op) && next' == NextStep(s, next, max, op) && e == ListAnswer(s, next, max, op))
  }

  method PerformInsert<B>(r: Repository<B>, id: Id, item: Item<B>) returns (e: Event<B>)
    requires r.Sane() && id <= r.max
    modifies r
    ensures r.Sane()
    ensures r.View() == StateStep(old(r.View()), r.max, InsertItem(id, item)) && e == StateAnswer(old(r.View()), r.max, InsertItem(id, item))
    ensures Behaves(old(r.Consistent()), old(r.repo), old(r.nextId), r.max, InsertItem(id, item), e,
                    r.Consistent(), r.repo, r.nextId)
  {
    ScanIfConsistent(r, item.name);
    var res := r.Insert(id, item);
    e := if res == Ok then Inserted(id) else Refused(res);
  }

  method PerformUpdate<B>(r: Repository<B>, id: Id, item: Item<B>) returns (e: Event<B>)
    requires r.Sane()
    modifies r
    ensures r.Sane()
    ensures r.View() == StateStep(old(r.View()), r.max, UpdateItem(id, item)) && e == StateAnswer(old(r.View()), r.max, UpdateItem(id, item))
    ensures Behaves(old(r.Consistent()), old(r.repo), old(r.nextId), r.max, UpdateItem(id, item), e,
                    r.Consistent(), r.repo, r.nextId)
  {
    ScanIfConsistent(r, item.name);
    var res := r.Update(id, item);
    e := if res == Ok then Nothing else Refused(res);
  }

  method Perform<B>(r: Repository<B>, op: Op<B>) returns (e: Event<B>)
    requires r.Sane() && (op.InsertItem? ==> op.id <= r.max)
    modifies r
    ensures r.Sane()
    ensures r.View() == StateStep(old(r.View()), r.max, op) && e == StateAnswer(old(r.View()), r.max, op)
    ensures Behaves(old(r.Consistent()), old(r.repo), old(r.nextId), r.max, op, e, r.Consistent(), r.repo, r.nextId)
  {
    match op {
      case Allocate =>
        var id := r.GetAndIncrementNextId();
        e := if id.Some? then Allocated(id.value) else Refused(Panicked);
      case InsertItem(id, item) => e := PerformInsert(r, id, item);
      case UpdateItem(id, item) => e := PerformUpdate(r, id, item);
      case RemoveItem(id) =>
        r.Remove(id);
        e := Nothing;
      case LookupName(name) =>
        ScanIfConsistent(r, name);
        e := Looked(r.GetByName(name));
    }
  }

  lemma ScanIfConsistent<B>(r: Repository<B>, name: string)
    requires r.Sane()
    ensures r.Consistent() ==>
              var s := Scan(r.repo, name);
              && (s.None? <==> name !in r.names.bwd)
              && (s.Some? ==> r.names.bwd[name] == s.value.0 && r.GetByName(name) == Some(s.value.1))
              && (s.None? ==> r.GetByName(name) == None)
  {
    if r.Consistent() { r.LookupEqualsScan(name); }
  }

  /** Every identifier in the log is below the next one, or is the largest. */
  ghost predicate Passed<B>(log: seq<Event<B>>, next: Id, max: Id) {
    && (forall i :: 0 <= i < |log| && log[i].Allocated? ==> log[i].id < next && log[i].id < max)
    && (forall i :: 0 <= i < |log| && log[i].Inserted? ==> log[i].id < next || log[i].id == max)
  }

  function NextBy<B>(next: Id, e: Event<B>, max: Id): Id {
    match e
    case Allocated(id) => id + 1
    case Inserted(id) => NextAfter(next, id, max)
    case _ => next
  }

  /** The next identifier, read off the log alone. */
  function NextOf<B>(log: seq<Event<B>>, max: Id): Id {
    if log == [] then 0 else NextBy(NextOf(log[..|log| - 1], max), log[|log| - 1], max)
  }

  /** The next identifier is the least above every identifier allocated, and every one
      inserted but the largest. */
  ghost predicate IsLeastAbove<B>(log: seq<Event<B>>, next: Id, max: Id) {
    && (forall i :: 0 <= i < |log| && (log[i].Allocated? || log[i].Inserted?) && log[i].id < max ==> log[i].id < next)
    && (next == 0 ||
        exists i :: 0 <= i < |log| && (log[i].Allocated? || log[i].Inserted?) && log[i].id < max && log[i].id + 1 == next)
  }

  lemma LeastMore<B>(log: seq<Event<B>>, e: Event<B>, next: Id, next': Id, max: Id)
    requires IsLeastAbove(log, next, max) && Passed(log, next, max) && next <= next' && next' == NextBy(next, e, max)
    requires e.Allocated? ==> e.id == next < max
    ensures IsLeastAbove(log + [e], next', max)
  {
    var more := log + [e];
    assert more[|log|] == e;
    if next' == next && next > 0 {
      var i :| 0 <= i < |log| && (log[i].Allocated? || log[i].Inserted?) && log[i].id < max && log[i].id + 1 == next;
      assert more[i] == log[i];
    }
  }

  /** In every run, an allocation gives the next identifier, or panics exactly at the
      largest. */
  ghost predicate AllocatesNext<B>(ops: seq<Op<B>>, max: Id, log: seq<Event<B>>) {
    && |log| <= |ops|
    && forall n :: 0 <= n < |log| && ops[n] == Allocate ==>
         log[n] == if NextOf(log[..n], max) == max then Refused(Panicked) else Allocated(NextOf(log[..n], max))
  }

  lemma AllocatesMore<B>(ops: seq<Op<B>>, max: Id, log: seq<Event<B>>, e: Event<B>, next: Id, next': Id)
    requires AllocatesNext(ops, max, log) && |log| < |ops| && next == NextOf(log, max)
    requires ops[|log|] == Allocate ==> e == if next == max then Refused(Panicked) else Allocated(next)
    requires next' == NextBy(next, e, max)
    ensures AllocatesNext(ops, max, log + [e]) && next' == NextOf(log + [e], max)
  {
    var more := log + [e];
    assert more[..|log|] == log;
    forall n | 0 <= n < |more| && ops[n] == Allocate
      ensures more[n] == if NextOf(more[..n], max) == max then Refused(Panicked) else Allocated(NextOf(more[..n], max))
    {
      assert more[..n] == log[..n];
      assert log[..|log|] == log;
    }
  }

  ghost predicate AnsweredByState<B>(ops: seq<Op<B>>, max: Id, log: seq<Event<B>>) {
    && |log| <= |ops|
    && forall n :: 0 <= n < |log| ==> log[n] == StateAnswer(StateRun(ops[..n], max), max, ops[n])
  }

  lemma StateMore<B>(ops: seq<Op<B>>, max: Id, log: seq<Event<B>>, e: Event<B>)
    requires AnsweredByState(ops, max, log) && |log| < |ops|
    requires e == StateAnswer(StateRun(ops[..|log|], max), max, ops[|log|])
    ensures AnsweredByState(ops, max, log + [e])
    ensures StateRun(ops[..|log| + 1], max) == StateStep(StateRun(ops[..|log|], max), max, ops[|log|])
  {
    assert ops[..|log| + 1][..|log|] == ops[..|log|];
  }

  lemma FreshMore<B>(log: seq<Event<B>>, e: Event<B>, next: Id, next': Id, max: Id)
    requires FreshAllocations(log) && Passed(log, next, max) && next <= next'
    requires e.Allocated? ==> next == e.id < next' && e.id < max
    requires e.Inserted? ==> e.id < next' || e.id == max
    ensures FreshAllocations(log + [e]) && Passed(log + [e], next', max)
  {}

  ghost predicate AnsweredByList<B>(ops: seq<Op<B>>, max: Id, log: seq<Event<B>>) {
    && |log| <= |ops|
    && forall n :: 0 <= n < |log| ==> log[n] == ListAnswer(ListRun(ops[..n]), NextRun(ops[..n], max), max, ops[n])
  }

  lemma AnsweredMore<B>(ops: seq<Op<B>>, max: Id, log: seq<Event<B>>, e: Event<B>)
    requires AnsweredByList(ops, max, log) && |log| < |ops|
    requires e == ListAnswer(ListRun(ops[..|log|]), NextRun(ops[..|log|], max), max, ops[|log|])
    ensures AnsweredByList(ops, max, log + [e])
  {
    var more := log + [e];
    forall n | 0 <= n < |more|
      ensures more[n] == ListAnswer(ListRun(ops[..n]), NextRun(ops[..n], max), max, ops[n])
    {
      if n < |log| { assert more[n] == log[n]; }
    }
  }

  lemma RunMore<B>(ops: seq<Op<B>>, max: Id, n: nat)
    requires n < |ops|
    ensures ListRun(ops[..n + 1]) == ListStep(ListRun(ops[..n]), ops[n])
    ensures NextRun(ops[..n + 1], max) == NextStep(ListRun(ops[..n]), NextRun(ops[..n], max), max, ops[n])
  {
    assert ops[..n + 1][..n] == ops[..n];
  }

  /** Every run of a repository: identifiers handed out are always new and are the next ones,
      even after removals and refused calls, an allocation panicking exactly when the next
      one is the largest; the next one is the least above all those allocated or inserted
      below the largest; and every answer is that of the two maps.  If no write takes a name from another
      identifier, the assertion never fails and every answer is that of the plain list. */
  method Replay<B>(max: Id, ops: seq<Op<B>>) returns (log: seq<Event<B>>)
    requires forall n :: 0 <= n < |ops| && ops[n].InsertItem? ==> ops[n].id <= max
    ensures |log| == |ops|
    ensures FreshAllocations(log) && AllocatesNext(ops, max, log) && Passed(log, NextOf(log, max), max)
    ensures IsLeastAbove(log, NextOf(log, max), max)
    ensures AnsweredByState(ops, max, log)
    ensures AllAdmissible(ops) ==> AnsweredByList(ops, max, log)
  {
    var r := new Repository<B>(max);
    log := [];
    for n := 0 to |ops|
      invariant fresh(r) && r.max == max
      invariant |log| == n && Sofar(r, ops, log)
    {
      var e := PerformNext(r, ops, n, log);
      log := log + [e];
    }
  }

  ghost predicate Follows<B>(r: Repository<B>, ops: seq<Op<B>>, n: nat)
    requires n <= |ops|
    reads r
  {
    r.Consistent() && r.repo == ListRun(ops[..n]) && r.nextId == NextRun(ops[..n], r.max)
  }

  /** What is claimed of the log of every run, given the next identifier it leaves. */
  ghost predicate Orderly<B>(ops: seq<Op<B>>, max: Id, log: seq<Event<B>>, next: Id) {
    && FreshAllocations(log) && Passed(log, next, max)
    && AllocatesNext(ops, max, log) && next == NextOf(log, max)
    && IsLeastAbove(log, next, max)
  }

  lemma OrderlyMore<B>(ops: seq<Op<B>>, max: Id, log: seq<Event<B>>, e: Event<B>, st: State<B>)
    requires |log| < |ops| && Orderly(ops, max, log, st.next) && Inverse(st.names)
    requires var op := ops[|log|]; (op.InsertItem? ==> op.id <= max) && e == StateAnswer(st, max, op)
    requires st.next <= max
    ensures Orderly(ops, max, log + [e], StateStep(st, max, ops[|log|]).next)
  {
    var next' := StateStep(st, max, ops[|log|]).next;
    FreshMore(log, e, st.next, next', max);
    AllocatesMore(ops, max, log, e, st.next, next');
    LeastMore(log, e, st.next, next', max);
  }

  /** In an admissible run an operation that behaves does what it does to the plain list. */
  lemma FollowsMore<B>(ops: seq<Op<B>>, max: Id, log: seq<Event<B>>, e: Event<B>, s: Items<B>, next: Id,
                       agrees: bool, s': Items<B>, next': Id)
    requires |log| < |ops| && AnsweredByList(ops, max, log) && AllAdmissible(ops)
    requires s == ListRun(ops[..|log|]) && next == NextRun(ops[..|log|], max)
    requires Behaves(true, s, next, max, ops[|log|], e, agrees, s', next')
    ensures AnsweredByList(ops, max, log + [e]) && agrees
    ensures s' == ListRun(ops[..|log| + 1]) && next' == NextRun(ops[..|log| + 1], max)
  {
    assert Admissible(ListRun(ops[..|log|]), ops[|log|]);
    AnsweredMore(ops, max, log, e);
    RunMore(ops, max, |log|);
  }

  /** What holds after the operations that the log answers. */
  ghost predicate Sofar<B>(r: Repository<B>, ops: seq<Op<B>>, log: seq<Event<B>>)
    requires |log| <= |ops|
    reads r
  {
    && r.Sane() && Orderly(ops, r.max, log, r.nextId)
    && r.View() == StateRun(ops[..|log|], r.max) && AnsweredByState(ops, r.max, log)
    && (AllAdmissible(ops) ==> Follows(r, ops, |log|) && AnsweredByList(ops, r.max, log))
  }

  method PerformNext<B>(r: Repository<B>, ops: seq<Op<B>>, n: nat, ghost log: seq<Event<B>>) returns (e: Event<B>)
    requires n < |ops| && |log| == n && (ops[n].InsertItem? ==> ops[n].id <= r.max)
    requires Sofar(r, ops, log)
    modifies r
    ensures Sofar(r, ops, log + [e])
  {
    ghost var st := r.View();
    e := Perform(r, ops[n]);
    assert Orderly(ops, r.max, log + [e], r.nextId) by { OrderlyMore(ops, r.max, log, e, st); }
    assert AnsweredByState(ops, r.max, log + [e]) && r.View() == StateRun(ops[..n + 1], r.max) by {
      StateMore(ops, r.max, log, e);
    }
    if AllAdmissible(ops) {
      FollowsMore(ops, r.max, log, e, st.items, st.next, r.Consistent(), r.repo, r.nextId);
    }
  }
}
