/**
 The token repository: a repository of tokens with an index from token hashes to
 identifiers, which adding, re-hashing and deleting tokens must keep in step.
 */
module CatalogTokens {
  import opened Basics
  import opened CatalogRepository

  type Hash = seq<bv8>

  datatype Token = Token(hash: Hash, updatedAt: Option<int>, updatedBy: Option<Id>)

  type Tokens = Items<Token>

  /** The first token with that hash, by looking at all of them. */
  function ScanHash(s: Tokens, hash: Hash): (r: Option<(Id, Item<Token>)>)
    ensures r.None? <==> forall i :: 0 <= i < |s| ==> s[i].1.body.hash != hash
    ensures r.Some? ==> r.value in s && r.value.1.body.hash == hash
  {
    if s == [] then None else if s[0].1.body.hash == hash then Some(s[0]) else ScanHash(s[1..], hash)
  }

  /** The index holds exactly the hashes of the stored tokens. */
  ghost predicate Indexes(hashes: BiMap<Hash>, s: Tokens) {
    forall id :: IndexesAt(hashes, s, id)
  }

  ghost predicate IndexesAt(hashes: BiMap<Hash>, s: Tokens, id: Id) {
    (id in hashes.fwd <==> Has(s, id)) && (id in hashes.fwd ==> hashes.fwd[id] == Find(s, id).value.body.hash)
  }

  function LookUp(hashes: BiMap<Hash>, s: Tokens, hash: Hash): Option<Item<Token>> {
    if hash in hashes.bwd then Find(s, hashes.bwd[hash]) else None
  }

  ghost predicate UniqueHashes(s: Tokens) {
    forall i, j :: 0 <= i < |s| && 0 <= j < |s| && s[i].1.body.hash == s[j].1.body.hash ==> i == j
  }

  lemma IndexedAt(hashes: BiMap<Hash>, s: Tokens, i: nat)
    requires DistinctIds(s) && Inverse(hashes) && Indexes(hashes, s) && i < |s|
    ensures s[i].1.body.hash in hashes.bwd && hashes.bwd[s[i].1.body.hash] == s[i].0
  {
    FindAt(s, i);
    assert IndexesAt(hashes, s, s[i].0);
  }

  /** An index that is right finds what a look at every token finds, and no two tokens
      share a hash. */
  lemma LookupEqualsScan(hashes: BiMap<Hash>, s: Tokens, hash: Hash)
    requires DistinctIds(s) && Inverse(hashes) && Indexes(hashes, s)
    ensures var found := ScanHash(s, hash);
            && (found.None? <==> hash !in hashes.bwd)
            && (found.Some? ==> hashes.bwd[hash] == found.value.0)
            && LookUp(hashes, s, hash) == if found.Some? then Some(found.value.1) else None
    ensures UniqueHashes(s)
  {
    forall i | 0 <= i < |s| ensures s[i].1.body.hash in hashes.bwd && hashes.bwd[s[i].1.body.hash] == s[i].0 {
      IndexedAt(hashes, s, i);
    }
    if hash in hashes.bwd {
      var id := hashes.bwd[hash];
      assert IndexesAt(hashes, s, id);
      FoundIsIn(s, id);
      var i :| 0 <= i < |s| && s[i] == (id, Find(s, id).value);
    }
    if ScanHash(s, hash).Some? {
      var i :| 0 <= i < |s| && s[i] == ScanHash(s, hash).value;
      FindAt(s, i);
    }
  }

  /** Storing a token and binding its hash keeps the index right exactly if no other
      token has that hash. */
  lemma IndexAfterStore(hashes: BiMap<Hash>, s: Tokens, id: Id, token: Item<Token>)
    requires Inverse(hashes) && Indexes(hashes, s)
    ensures Indexes(Bind(hashes, id, token.body.hash), Store(s, id, token)) <==>
            token.body.hash !in hashes.bwd || hashes.bwd[token.body.hash] == id
  {
    var hashes', s' := Bind(hashes, id, token.body.hash), Store(s, id, token);
    if token.body.hash in hashes.bwd && hashes.bwd[token.body.hash] != id {
      var other := hashes.bwd[token.body.hash];
      assert IndexesAt(hashes, s, other);
      StoreSetsOne(s, id, token, other);
      assert !IndexesAt(hashes', s', other);
    } else {
      forall x: Id ensures IndexesAt(hashes', s', x) {
        assert IndexesAt(hashes, s, x);
        StoreSetsOne(s, id, token, x);
      }
    }
  }

  /** Binding a hash without storing the token keeps the index right exactly if it is
      the hash stored already. */
  lemma IndexAfterRefusal(hashes: BiMap<Hash>, s: Tokens, id: Id, hash: Hash)
    requires Inverse(hashes) && Indexes(hashes, s) && Has(s, id)
    ensures Indexes(Bind(hashes, id, hash), s) <==> hash == Find(s, id).value.body.hash
  {
    var hashes' := Bind(hashes, id, hash);
    assert IndexesAt(hashes, s, id);
    if hash != Find(s, id).value.body.hash {
      assert !IndexesAt(hashes', s, id);
    } else {
      forall x: Id ensures IndexesAt(hashes', s, x) {
        assert IndexesAt(hashes, s, x);
      }
    }
  }

  lemma IndexAfterDrop(hashes: BiMap<Hash>, s: Tokens, id: Id)
    requires DistinctIds(s) && Inverse(hashes) && Indexes(hashes, s)
    ensures Indexes(RemoveLeft(hashes, id), Drop(s, id))
  {
    forall x: Id ensures IndexesAt(RemoveLeft(hashes, id), Drop(s, id), x) {
      assert IndexesAt(hashes, s, x);
      DropRemovesOne(s, id, x);
    }
  }

  datatype TokenResult = Done | Rejected(why: Result) | MissingAdminToken

  class TokenRepository {
    const repo: Repository<Token>
    var hashes: BiMap<Hash>

    ghost predicate Sane()
      reads this, repo
    {
      repo.Sane() && Inverse(hashes)
    }

    /** Names and hashes both lead to the tokens stored under them. */
    ghost predicate Consistent()
      reads this, repo
    {
      repo.Consistent() && Indexes(hashes, repo.repo)
    }

    constructor (max: Id)
      ensures Sane() && Consistent() && fresh(repo) && repo.max == max && repo.repo == []
    {
      hashes := BiMap(map[], map[]);
      repo := new Repository<Token>(max);
    }

    function HashToInfo(hash: Hash): Option<Item<Token>>
      reads this, repo
    {
      LookUp(hashes, repo.repo, hash)
    }

    /** The index is written before the insert that may be refused: a refused token
        leaves index and tokens in agreement only if it carries the hash already
        stored for its identifier. */
    method AddToken(id: Id, token: Item<Token>) returns (r: TokenResult)
      requires Sane() && Consistent() && id <= repo.max
      modifies this, repo
      ensures Sane()
      ensures r == Rejected(AlreadyExists) <==> old(Has(repo.repo, id)) && token.name in old(repo.names).bwd
      ensures r == Done || r == Rejected(AlreadyExists)
      ensures repo.repo == if r == Done then Store(old(repo.repo), id, token) else old(repo.repo)
      ensures repo.Consistent() <==>
              r != Done || token.name !in old(repo.names).bwd || old(repo.names).bwd[token.name] == id
      ensures Indexes(hashes, repo.repo) <==>
              if r == Done then token.body.hash !in old(hashes).bwd || old(hashes).bwd[token.body.hash] == id
              else token.body.hash == old(Find(repo.repo, id)).value.body.hash
    {
      ghost var was, had := repo.repo, hashes;
      hashes := Bind(hashes, id, token.body.hash);
      var res := repo.Insert(id, token);
      r := if res == Ok then Done else Rejected(res);
      if res == Ok {
        IndexAfterStore(had, was, id, token);
      } else {
        IndexAfterRefusal(had, was, id, token.body.hash);
      }
    }

    method UpdateAdminTokenHash(id: Id, hash: Hash, updatedAt: int) returns (r: TokenResult)
      requires Sane() && Consistent()
      modifies this, repo
      ensures Sane() && repo.Consistent()
      ensures r == MissingAdminToken <==> !old(Has(repo.repo, id))
      ensures r == MissingAdminToken || r == Done
      ensures r == MissingAdminToken ==> repo.repo == old(repo.repo) && hashes == old(hashes)
      ensures r == Done ==>
                repo.repo == Store(old(repo.repo), id, Rehashed(old(Find(repo.repo, id)).value, id, hash, updatedAt))
      ensures Indexes(hashes, repo.repo) <==>
              r == MissingAdminToken || hash !in old(hashes).bwd || old(hashes).bwd[hash] == id
    {
      ghost var was, had := repo.repo, hashes;
      var found := Find(repo.repo, id);
      if found.None? { return MissingAdminToken; }
      var token := Rehashed(found.value, id, hash, updatedAt);
      assert AgreeAt(repo.names, repo.repo, id);
      var res := repo.Update(id, token);
      hashes := Bind(hashes, id, hash);
      r := Done;
      IndexAfterStore(had, was, id, token);
    }

    method DeleteToken(name: string) returns (r: TokenResult)
      requires Sane() && Consistent()
      modifies this, repo
      ensures Sane() && Consistent()
      ensures r == if name in old(repo.names).bwd then Done else Rejected(NotFound)
      ensures repo.repo == if r == Done then Drop(old(repo.repo), old(repo.names).bwd[name]) else old(repo.repo)
    {
      ghost var was, had := repo.repo, hashes;
      var id := repo.NameToId(name);
      if id.None? { return Rejected(NotFound); }
      repo.Remove(id.value);
      hashes := RemoveLeft(hashes, id.value);
      r := Done;
      IndexAfterDrop(had, was, id.value);
    }
  }

  function Rehashed(t: Item<Token>, id: Id, hash: Hash, updatedAt: int): Item<Token> {
    Item(t.name, Token(hash, Some(updatedAt), Some(id)))
  }

  // ----- whole runs -----------------------------------------------------------------

  datatype TokenOp =
    | Add(id: Id, token: Item<Token>)
    | Rehash(id: Id, hash: Hash, at: int)
    | Delete(name: string)
    | LookupHash(hash: Hash)

  function TokensStep(s: Tokens, op: TokenOp): Tokens {
    match op
    case Add(id, token) => if Has(s, id) && Scan(s, token.name).Some? then s else Store(s, id, token)
    case Rehash(id, hash, at) => if Has(s, id) then Store(s, id, Rehashed(Find(s, id).value, id, hash, at)) else s
    case Delete(name) => if Scan(s, name).Some? then Drop(s, Scan(s, name).value.0) else s
    case LookupHash(_) => s
  }

  function TokensRun(ops: seq<TokenOp>): Tokens {
    if ops == [] then [] else TokensStep(TokensRun(ops[..|ops| - 1]), ops[|ops| - 1])
  }

  /** A token is added under a new identifier, name and hash; a token is given a hash
      that no other token has. */
  predicate Allowed(s: Tokens, op: TokenOp) {
    match op
    case Add(id, token) => !Has(s, id) && Scan(s, token.name).None? && ScanHash(s, token.body.hash).None?
    case Rehash(id, hash, _) => ScanHash(s, hash).None? || ScanHash(s, hash).value.0 == id
    case _ => true
  }

  ghost predicate AnsweredByScan(ops: seq<TokenOp>, answers: seq<Option<Item<Token>>>)
    requires |answers| <= |ops|
  {
    forall n :: 0 <= n < |answers| && ops[n].LookupHash? ==>
      answers[n] == var s := ScanHash(TokensRun(ops[..n]), ops[n].hash); if s.Some? then Some(s.value.1) else None
  }

  ghost predicate AllowedAt(ops: seq<TokenOp>, n: nat, max: Id)
    requires n < |ops|
  {
    Allowed(TokensRun(ops[..n]), ops[n]) && (ops[n].Add? ==> ops[n].id <= max)
  }

  lemma AnsweredMore(ops: seq<TokenOp>, answers: seq<Option<Item<Token>>>, answer: Option<Item<Token>>, s: Tokens)
    requires |answers| < |ops| && AnsweredByScan(ops, answers) && s == TokensRun(ops[..|answers|])
    requires ops[|answers|].LookupHash? ==>
               answer == var found := ScanHash(s, ops[|answers|].hash); if found.Some? then Some(found.value.1) else None
    ensures AnsweredByScan(ops, answers + [answer])
  {}

  /** Every run in which the operations are allowed: looking up a hash gives exactly the
      stored token that carries it, which is unique. */
  method ReplayTokens(max: Id, ops: seq<TokenOp>) returns (answers: seq<Option<Item<Token>>>)
    requires forall n :: 0 <= n < |ops| ==> AllowedAt(ops, n, max)
    ensures |answers| == |ops| && AnsweredByScan(ops, answers)
    ensures UniqueHashes(TokensRun(ops))
  {
    var t := new TokenRepository(max);
    answers := [];
    for n := 0 to |ops|
      invariant t.Sane() && t.Consistent() && fresh(t) && fresh(t.repo) && t.repo.max == max
      invariant t.repo.repo == TokensRun(ops[..n])
      invariant |answers| == n && AnsweredByScan(ops, answers)
    {
      assert AllowedAt(ops, n, max);
      var answer := PerformToken(t, ops[n]);
      AnsweredMore(ops, answers, answer, TokensRun(ops[..n]));
      answers := answers + [answer];
      assert ops[..n + 1][..n] == ops[..n];
    }
    assert ops[..|ops|] == ops;
    LookupEqualsScan(t.hashes, t.repo.repo, []);
  }

  method PerformToken(t: TokenRepository, op: TokenOp) returns (answer: Option<Item<Token>>)
    requires t.Sane() && t.Consistent() && Allowed(t.repo.repo, op) && (op.Add? ==> op.id <= t.repo.max)
    modifies t, t.repo
    ensures t.Sane() && t.Consistent()
    ensures t.repo.repo == TokensStep(old(t.repo.repo), op)
    ensures op.LookupHash? ==>
              answer == var s := ScanHash(old(t.repo.repo), op.hash); if s.Some? then Some(s.value.1) else None
  {
    answer := None;
    match op {
      case Add(id, token) =>
        ScanIfConsistent(t.repo, token.name);
        LookupEqualsScan(t.hashes, t.repo.repo, token.body.hash);
        var _ := t.AddToken(id, token);
      case Rehash(id, hash, at) =>
        LookupEqualsScan(t.hashes, t.repo.repo, hash);
        var _ := t.UpdateAdminTokenHash(id, hash, at);
      case Delete(name) =>
        ScanIfConsistent(t.repo, name);
        var _ := t.DeleteToken(name);
      case LookupHash(hash) =>
        LookupEqualsScan(t.hashes, t.repo.repo, hash);
        answer := t.HashToInfo(hash);
    }
  }

  // ----- hashes that are gone ---------------------------------------------------------

  lemma {:induction false} StoredAre(s: Tokens, id: Id, token: Item<Token>)
    ensures forall x :: x in Store(s, id, token) ==> x in s || x == (id, token)
  {
    if s != [] && s[0].0 != id {
      StoredAre(s[1..], id, token);
    }
  }

  lemma {:induction false} LeftAre(s: Tokens, id: Id)
    ensures forall x :: x in Drop(s, id) ==> x in s
  {
    if s != [] && s[0].0 != id {
      LeftAre(s[1..], id);
    }
  }

  /** The operation gives a token this hash. */
  predicate Carries(op: TokenOp, hash: Hash) {
    match op
    case Add(_, token) => token.body.hash == hash
    case Rehash(_, h, _) => h == hash
    case _ => false
  }

  lemma AbsentHash(s: Tokens, hash: Hash)
    ensures ScanHash(s, hash).None? <==> forall x :: x in s ==> x.1.body.hash != hash
  {}

  lemma StaysGoneOneStep(s: Tokens, op: TokenOp, hash: Hash)
    requires ScanHash(s, hash).None? && !Carries(op, hash)
    ensures ScanHash(TokensStep(s, op), hash).None?
  {
    AbsentHash(s, hash);
    AbsentHash(TokensStep(s, op), hash);
    match op {
      case Add(id, token) => StoredAre(s, id, token);
      case Rehash(id, h, at) => if Has(s, id) { StoredAre(s, id, Rehashed(Find(s, id).value, id, h, at)); }
      case Delete(name) => if Scan(s, name).Some? { LeftAre(s, Scan(s, name).value.0); }
      case LookupHash(_) =>
    }
  }

  /** A hash that is gone at some point resolves to nothing until an operation gives it to
      a token again. */
  lemma {:induction false} StaysGone(ops: seq<TokenOp>, n: nat, hash: Hash)
    requires n <= |ops| && ScanHash(TokensRun(ops[..n]), hash).None?
    requires forall k :: n <= k < |ops| ==> !Carries(ops[k], hash)
    ensures ScanHash(TokensRun(ops), hash).None?
    decreases |ops|
  {
    if n == |ops| {
      assert ops[..n] == ops;
    } else {
      var before := ops[..|ops| - 1];
      assert before[..n] == ops[..n];
      StaysGone(before, n, hash);
      StaysGoneOneStep(TokensRun(before), ops[|ops| - 1], hash);
    }
  }

  lemma AddKeepsUnique(s: Tokens, id: Id, token: Item<Token>)
    requires DistinctIds(s) && UniqueHashes(s)
    requires ScanHash(s, token.body.hash).None? || ScanHash(s, token.body.hash).value.0 == id
    ensures DistinctIds(Store(s, id, token)) && UniqueHashes(Store(s, id, token))
  {
    var s' := Store(s, id, token);
    StoreKeepsDistinct(s, id, token);
    StoredAre(s, id, token);
    forall i, j | 0 <= i < |s'| && 0 <= j < |s'| && s'[i].1.body.hash == s'[j].1.body.hash ensures i == j {
      SameHashSameId(s, id, token, s'[i], s'[j]);
    }
  }

  lemma SameHashSameId(s: Tokens, id: Id, token: Item<Token>, x: (Id, Item<Token>), y: (Id, Item<Token>))
    requires UniqueHashes(s) && DistinctIds(s) && x.1.body.hash == y.1.body.hash
    requires ScanHash(s, token.body.hash).None? || ScanHash(s, token.body.hash).value.0 == id
    requires (x in s || x == (id, token)) && (y in s || y == (id, token))
    ensures x.0 == y.0
  {
    var found := ScanHash(s, token.body.hash);
    if x != (id, token) && y == (id, token) {
      OnlyOneHas(s, x, token.body.hash);
    } else if x == (id, token) && y != (id, token) {
      OnlyOneHas(s, y, token.body.hash);
    }
  }

  lemma OnlyOneHas(s: Tokens, x: (Id, Item<Token>), hash: Hash)
    requires UniqueHashes(s) && x in s && x.1.body.hash == hash
    ensures ScanHash(s, hash) == Some(x)
  {
    AbsentHash(s, hash);
  }

  lemma DropKeepsUnique(s: Tokens, id: Id)
    requires DistinctIds(s) && UniqueHashes(s)
    ensures DistinctIds(Drop(s, id)) && UniqueHashes(Drop(s, id))
  {
    DropKeepsDistinct(s, id);
    LeftAre(s, id);
    var s' := Drop(s, id);
    forall i, j | 0 <= i < |s'| && 0 <= j < |s'| && s'[i].1.body.hash == s'[j].1.body.hash ensures i == j {
      assert s'[i] in s && s'[j] in s;
    }
  }

  /** Allowed operations keep identifiers and hashes distinct. */
  lemma {:induction false} AllowedRunsAreDistinct(ops: seq<TokenOp>, max: Id, n: nat)
    requires n <= |ops| && forall k :: 0 <= k < n ==> AllowedAt(ops, k, max)
    ensures DistinctIds(TokensRun(ops[..n])) && UniqueHashes(TokensRun(ops[..n]))
  {
    if n > 0 {
      var s, op := TokensRun(ops[..n - 1]), ops[n - 1];
      AllowedRunsAreDistinct(ops, max, n - 1);
      assert ops[..n][..n - 1] == ops[..n - 1];
      assert AllowedAt(ops, n - 1, max);
      match op {
        case Add(id, token) => AddKeepsUnique(s, id, token);
        case Rehash(id, h, at) => if Has(s, id) { AddKeepsUnique(s, id, Rehashed(Find(s, id).value, id, h, at)); }
        case Delete(name) => if Scan(s, name).Some? { DropKeepsUnique(s, Scan(s, name).value.0); }
        case LookupHash(_) =>
      }
    }
  }

  lemma TokensRunMore(ops: seq<TokenOp>, n: nat)
    requires n < |ops|
    ensures TokensRun(ops[..n + 1]) == TokensStep(TokensRun(ops[..n]), ops[n])
  {
    assert ops[..n + 1][..n] == ops[..n];
  }

  /** The n-th operation takes the hash away from the token that has it, by giving that
      token another one or by deleting it. */
  predicate TakesAway(s: Tokens, op: TokenOp, hash: Hash) {
    match op
    case Rehash(id, h, _) => Has(s, id) && Find(s, id).value.body.hash == hash && h != hash
    case Delete(name) => Scan(s, name).Some? && Scan(s, name).value.1.body.hash == hash
    case _ => false
  }

  lemma TakenAwayIsGone(s: Tokens, op: TokenOp, hash: Hash)
    requires DistinctIds(s) && UniqueHashes(s) && TakesAway(s, op, hash)
    ensures ScanHash(TokensStep(s, op), hash).None?
  {
    if op.Rehash? {
      ReplacedHashIsGone(s, op.id, op.hash, op.at);
    } else {
      DeletedHashIsGone(s, op.name);
    }
  }

  /** In every run: a hash that was replaced, or whose token was deleted, resolves to
      nothing until an operation gives it to a token again. */
  lemma TakenHashStaysGone(ops: seq<TokenOp>, max: Id, n: nat, hash: Hash)
    requires n < |ops| && forall k :: 0 <= k < n ==> AllowedAt(ops, k, max)
    requires TakesAway(TokensRun(ops[..n]), ops[n], hash)
    requires forall k :: n < k < |ops| ==> !Carries(ops[k], hash)
    ensures ScanHash(TokensRun(ops), hash).None?
  {
    var s := TokensRun(ops[..n]);
    AllowedRunsAreDistinct(ops, max, n);
    TakenAwayIsGone(s, ops[n], hash);
    TokensRunMore(ops, n);
    StaysGone(ops, n + 1, hash);
  }

  /** The operation is about the token, by its identifier or its name. */
  predicate Touches(op: TokenOp, id: Id, name: string) {
    match op
    case Add(x, _) => x == id
    case Rehash(x, _, _) => x == id
    case Delete(x) => x == name
    case LookupHash(_) => false
  }

  lemma UntouchedOneStep(s: Tokens, op: TokenOp, id: Id, token: Item<Token>)
    requires DistinctIds(s) && Find(s, id) == Some(token) && !Touches(op, id, token.name)
    ensures Find(TokensStep(s, op), id) == Some(token)
  {
    match op {
      case Add(x, t) => StoreSetsOne(s, x, t, id);
      case Rehash(x, h, at) => if Has(s, x) { StoreSetsOne(s, x, Rehashed(Find(s, x).value, x, h, at), id); }
      case Delete(name) =>
        if Scan(s, name).Some? {
          var found := Scan(s, name).value;
          var k :| 0 <= k < |s| && s[k] == found;
          FindAt(s, k);
          DropRemovesOne(s, found.0, id);
        }
      case LookupHash(_) =>
    }
  }

  /** A token stays as it is while no operation is about it, and its hash leads to it. */
  lemma {:induction false} TokenIsFound(ops: seq<TokenOp>, max: Id, k: nat, n: nat, id: Id, token: Item<Token>)
    requires k <= n <= |ops| && forall i :: 0 <= i < n ==> AllowedAt(ops, i, max)
    requires Find(TokensRun(ops[..k]), id) == Some(token)
    requires forall i :: k <= i < n ==> !Touches(ops[i], id, token.name)
    ensures Find(TokensRun(ops[..n]), id) == Some(token)
    ensures ScanHash(TokensRun(ops[..n]), token.body.hash) == Some((id, token))
    decreases n
  {
    AllowedRunsAreDistinct(ops, max, n);
    if k < n {
      TokenIsFound(ops, max, k, n - 1, id, token);
      AllowedRunsAreDistinct(ops, max, n - 1);
      TokensRunMore(ops, n - 1);
      UntouchedOneStep(TokensRun(ops[..n - 1]), ops[n - 1], id, token);
    }
    FoundIsIn(TokensRun(ops[..n]), id);
    OnlyOneHas(TokensRun(ops[..n]), (id, token), token.body.hash);
  }

  /** In every run: what a new hash of a token leads to, until another operation is about
      that token: the token under its old name, marked with the time and the identifier of the
      re-hashing. */
  lemma RehashedTokenIsFound(ops: seq<TokenOp>, max: Id, k: nat, n: nat, name: string)
    requires k < n <= |ops| && forall i :: 0 <= i < n ==> AllowedAt(ops, i, max)
    requires ops[k].Rehash? && Has(TokensRun(ops[..k]), ops[k].id) && name == Find(TokensRun(ops[..k]), ops[k].id).value.name
    requires forall i :: k < i < n ==> !Touches(ops[i], ops[k].id, name)
    ensures ScanHash(TokensRun(ops[..n]), ops[k].hash) ==
            Some((ops[k].id, Item(name, Token(ops[k].hash, Some(ops[k].at), Some(ops[k].id)))))
  {
    var s, id := TokensRun(ops[..k]), ops[k].id;
    var token := Item(name, Token(ops[k].hash, Some(ops[k].at), Some(id)));
    TokensRunMore(ops, k);
    StoreSetsOne(s, id, token, id);
    TokenIsFound(ops, max, k + 1, n, id, token);
  }

  /** And the hash of a token that was added leads to it as it was added. */
  lemma AddedTokenIsFound(ops: seq<TokenOp>, max: Id, k: nat, n: nat)
    requires k < n <= |ops| && forall i :: 0 <= i < n ==> AllowedAt(ops, i, max)
    requires ops[k].Add? && forall i :: k < i < n ==> !Touches(ops[i], ops[k].id, ops[k].token.name)
    ensures ScanHash(TokensRun(ops[..n]), ops[k].token.body.hash) == Some((ops[k].id, ops[k].token))
  {
    assert AllowedAt(ops, k, max);
    TokensRunMore(ops, k);
    StoreSetsOne(TokensRun(ops[..k]), ops[k].id, ops[k].token, ops[k].id);
    TokenIsFound(ops, max, k + 1, n, ops[k].id, ops[k].token);
  }

  /** A hash that was replaced resolves to nothing. */
  lemma ReplacedHashIsGone(s: Tokens, id: Id, hash: Hash, at: int)
    requires DistinctIds(s) && UniqueHashes(s) && Has(s, id) && Find(s, id).value.body.hash != hash
    ensures ScanHash(TokensStep(s, Rehash(id, hash, at)), Find(s, id).value.body.hash).None?
  {
    var oldHash := Find(s, id).value.body.hash;
    var token := Rehashed(Find(s, id).value, id, hash, at);
    var s' := Store(s, id, token);
    StoreKeepsDistinct(s, id, token);
    FoundIsIn(s, id);
    var k :| 0 <= k < |s| && s[k] == (id, Find(s, id).value);
    forall i | 0 <= i < |s'| ensures s'[i].1.body.hash != oldHash {
      FindAt(s', i);
      StoreSetsOne(s, id, token, s'[i].0);
      if s'[i].0 != id {
        FoundIsIn(s, s'[i].0);
        var j :| 0 <= j < |s| && s[j] == s'[i];
      }
    }
  }

  /** A deleted token's hash resolves to nothing. */
  lemma DeletedHashIsGone(s: Tokens, name: string)
    requires DistinctIds(s) && UniqueHashes(s) && Scan(s, name).Some?
    ensures ScanHash(TokensStep(s, Delete(name)), Scan(s, name).value.1.body.hash).None?
  {
    var (id, token) := Scan(s, name).value;
    var s' := Drop(s, id);
    DropKeepsDistinct(s, id);
    var k :| 0 <= k < |s| && s[k] == (id, token);
    forall i | 0 <= i < |s'| ensures s'[i].1.body.hash != token.body.hash {
      FindAt(s', i);
      DropRemovesOne(s, id, s'[i].0);
      FoundIsIn(s, s'[i].0);
      var j :| 0 <= j < |s| && s[j] == s'[i];
    }
  }
}
