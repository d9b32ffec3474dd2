/**
 Signing keys shared by any number of service instances, each with its own cache
 (apps/server/src/modules/token/signing-key.service.ts).
 */
module SigningKeys {
  import opened Common

  /** Key pairs are taken symbolically: the two halves of pair n. */
  datatype PrivateKey = PrivateKey(pair: nat)

  datatype PublicKey = PublicKey(pair: nat)

  /** jose.exportJWK of a private key, as stored. */
  datatype PrivateJwk = ExportedPrivate(key: PrivateKey)

  datatype Status = Active | Rotated | Revoked

  datatype KeyRow = KeyRow(algorithm: string, publicJwk: PublicKey, privateJwk: PrivateJwk, status: Status,
                           createdAt: int)

  /** The column kid is unique. */
  type KeyTable = map<string, KeyRow>

  type Cache = map<string, PrivateKey>

  /** jose.importJWK undoes exportJWK. */
  function Import(jwk: PrivateJwk): PrivateKey {
    jwk.key
  }

  predicate Verifies(pub: PublicKey, key: PrivateKey) {
    pub.pair == key.pair
  }

  /** WHERE status = 'active' ORDER BY created_at DESC LIMIT 1; rows with equal timestamps may come in any order. */
  ghost predicate LatestActive(rows: KeyTable, kid: string) {
    && kid in rows && rows[kid].status.Active?
    && forall k | k in rows && rows[k].status.Active? :: rows[k].createdAt <= rows[kid].createdAt
  }

  ghost predicate NoActive(rows: KeyTable) {
    forall k | k in rows :: !rows[k].status.Active?
  }

  function RotateAll(rows: KeyTable): KeyTable {
    map k | k in rows :: if rows[k].status.Active? then rows[k].(status := Rotated) else rows[k]
  }

  /** getJwks: the published keys. */
  function Jwks(rows: KeyTable): map<string, PublicKey> {
    map k | k in rows && (rows[k].status.Active? || rows[k].status.Rotated?) :: rows[k].publicJwk
  }

  function NewKey(pair: nat, createdAt: int): KeyRow {
    KeyRow("RS256", PublicKey(pair), ExportedPrivate(PrivateKey(pair)), Active, createdAt)
  }

  /** An entry of the published key set. */
  datatype Jwk = Jwk(key: PublicKey, kid: string, alg: string, use: string)

  /** The published entries: one for each published key, latest first; keys of one timestamp in any order. */
  ghost predicate Publishes(rows: KeyTable, keys: seq<Jwk>) {
    && (forall i, j | 0 <= i < j < |keys| :: keys[i].kid != keys[j].kid)
    && (forall i | 0 <= i < |keys| :: keys[i].kid in Jwks(rows) && keys[i] == Entry(rows, keys[i].kid))
    && (forall kid | kid in Jwks(rows) :: Entry(rows, kid) in keys)
    && (forall i, j | 0 <= i < j < |keys| :: NoOlder(rows, keys[i].kid, keys[j].kid))
  }

  function Entry(rows: KeyTable, kid: string): Jwk
    requires kid in rows
  {
    Jwk(rows[kid].publicJwk, kid, rows[kid].algorithm, "sig")
  }

  predicate NoOlder(rows: KeyTable, kid: string, other: string) {
    kid in rows && other in rows && rows[other].createdAt <= rows[kid].createdAt
  }

  // ---------------------------------------------------------------------------------------------
  // Any interleaving of the instances' steps
  // ---------------------------------------------------------------------------------------------

  /** Where a call stands; every await in the code separates two stages. */
  datatype Stage =
    | Selecting
    | Holding(kid: string, row: KeyRow)
    | Importing(kid: string, row: KeyRow)
    | Marking
    | Clearing
    | Minting
    | Caching(kid: string, key: PrivateKey, pub: PublicKey)
    | Returned(kid: string, key: PrivateKey, pub: PublicKey)
    | Failed

  datatype Call = Call(instance: nat, stage: Stage)

  datatype System = System(rows: KeyTable, caches: map<nat, Cache>, calls: map<nat, Call>)

  datatype Event =
    | GetActive(id: nat, instance: nat)
    | Rotate(id: nat, instance: nat)
    | Select(id: nat, choice: Option<string>)
    | Lookup(id: nat)
    | ImportKey(id: nat)
    | MarkRotated(id: nat)
    | ClearCache(id: nat)
    | InsertKey(id: nat, kid: string, pair: nat, createdAt: int)
    | StoreInCache(id: nat)

  const INIT := System(map[], map[], map[])

  function CacheOf(s: System, instance: nat): Cache {
    if instance in s.caches then s.caches[instance] else map[]
  }

  function At(s: System, id: nat, stage: Stage): System
    requires id in s.calls
  {
    s.(calls := s.calls[id := s.calls[id].(stage := stage)])
  }

  /** One step; an event that is not enabled changes nothing. */
  ghost function Step(s: System, e: Event): System {
    match e
    case GetActive(id, instance) => if id in s.calls then s else s.(calls := s.calls[id := Call(instance, Selecting)])
    case Rotate(id, instance) => if id in s.calls then s else s.(calls := s.calls[id := Call(instance, Marking)])
    case Select(id, choice) =>
      if id !in s.calls || !s.calls[id].stage.Selecting? then s
      else
        (match choice
         case Some(kid) => if LatestActive(s.rows, kid) then At(s, id, Holding(kid, s.rows[kid])) else s
         case None => if NoActive(s.rows) then At(s, id, Minting) else s)
    case Lookup(id) =>
      if id !in s.calls || !s.calls[id].stage.Holding? then s
      else
        var c := s.calls[id];
        var cache := CacheOf(s, c.instance);
        if c.stage.kid in cache then At(s, id, Returned(c.stage.kid, cache[c.stage.kid], c.stage.row.publicJwk))
        else At(s, id, Importing(c.stage.kid, c.stage.row))
    case ImportKey(id) =>
      if id !in s.calls || !s.calls[id].stage.Importing? then s
      else
        var c := s.calls[id];
        var key := Import(c.stage.row.privateJwk);
        At(s.(caches := s.caches[c.instance := CacheOf(s, c.instance)[c.stage.kid := key]]), id,
           Returned(c.stage.kid, key, c.stage.row.publicJwk))
    case MarkRotated(id) =>
      if id !in s.calls || !s.calls[id].stage.Marking? then s else At(s.(rows := RotateAll(s.rows)), id, Clearing)
    case ClearCache(id) =>
      if id !in s.calls || !s.calls[id].stage.Clearing? then s
      else At(s.(caches := s.caches[s.calls[id].instance := map[]]), id, Minting)
    case InsertKey(id, kid, pair, createdAt) =>
      if id !in s.calls || !s.calls[id].stage.Minting? then s
      else if kid in s.rows then At(s, id, Failed)
      else At(s.(rows := s.rows[kid := NewKey(pair, createdAt)]), id, Caching(kid, PrivateKey(pair), PublicKey(pair)))
    case StoreInCache(id) =>
      if id !in s.calls || !s.calls[id].stage.Caching? then s
      else
        var c := s.calls[id];
        At(s.(caches := s.caches[c.instance := CacheOf(s, c.instance)[c.stage.kid := c.stage.key]]), id,
           Returned(c.stage.kid, c.stage.key, c.stage.pub))
  }

  ghost function Run(s: System, es: seq<Event>): System
    decreases |es|
  {
    if es == [] then s else Run(Step(s, es[0]), es[1..])
  }

  /** The material of a row never changes; its status only goes from active to rotated. */
  ghost predicate SameMaterial(a: KeyRow, b: KeyRow) {
    a.publicJwk == b.publicJwk && a.privateJwk == b.privateJwk
      && (b.status == a.status || (a.status.Active? && b.status.Rotated?))
  }

  ghost predicate RowsKept(rows: KeyTable, rows': KeyTable) {
    forall k | k in rows :: k in rows' && SameMaterial(rows[k], rows'[k])
  }

  ghost predicate Stored(rows: KeyTable, kid: string, key: PrivateKey, pub: PublicKey) {
    kid in rows && Import(rows[kid].privateJwk) == key && rows[kid].publicJwk == pub
  }

  ghost predicate StageInv(rows: KeyTable, stage: Stage) {
    match stage
    case Holding(kid, row) => Stored(rows, kid, Import(row.privateJwk), row.publicJwk)
    case Importing(kid, row) => Stored(rows, kid, Import(row.privateJwk), row.publicJwk)
    case Caching(kid, key, pub) => Stored(rows, kid, key, pub)
    case Returned(kid, key, pub) => Stored(rows, kid, key, pub)
    case _ => true
  }

  ghost predicate CacheInv(rows: KeyTable, cache: Cache) {
    forall kid | kid in cache :: kid in rows && Import(rows[kid].privateJwk) == cache[kid]
  }

  ghost predicate RowOk(row: KeyRow) {
    !row.status.Revoked? && Verifies(row.publicJwk, Import(row.privateJwk))
  }

  ghost predicate Inv(s: System) {
    && (forall k | k in s.rows :: RowOk(s.rows[k]))
    && (forall i | i in s.caches :: CacheInv(s.rows, s.caches[i]))
    && (forall id | id in s.calls :: StageInv(s.rows, s.calls[id].stage))
  }

  lemma KeptRowsKeepInv(s: System, rows': KeyTable)
    requires Inv(s) && RowsKept(s.rows, rows') && forall k | k in rows' :: RowOk(rows'[k])
    ensures Inv(s.(rows := rows'))
  {
    forall i | i in s.caches
      ensures CacheInv(rows', s.caches[i])
    {
      assert CacheInv(s.rows, s.caches[i]);
    }
    forall id | id in s.calls
      ensures StageInv(rows', s.calls[id].stage)
    {
      assert StageInv(s.rows, s.calls[id].stage);
    }
  }

  /** A call moves on, and its instance's cache may be replaced. */
  lemma MoveKeepsInv(s: System, id: nat, cache: Cache, stage: Stage)
    requires Inv(s) && id in s.calls && CacheInv(s.rows, cache) && StageInv(s.rows, stage)
    ensures Inv(At(s.(caches := s.caches[s.calls[id].instance := cache]), id, stage))
    ensures Inv(At(s, id, stage))
  {
  }

  lemma RowsStep(s: System, id: nat, rows': KeyTable, stage: Stage)
    requires Inv(s) && id in s.calls
    requires RowsKept(s.rows, rows') && (forall k | k in rows' :: RowOk(rows'[k])) && StageInv(rows', stage)
    ensures Inv(At(s.(rows := rows'), id, stage))
  {
    KeptRowsKeepInv(s, rows');
    var s' := s.(rows := rows');
    assert CacheInv(rows', map[]);
    MoveKeepsInv(s', id, map[], stage);
  }

  lemma {:induction false} StepKeepsInv(s: System, e: Event)
    requires Inv(s)
    ensures Inv(Step(s, e)) && RowsKept(s.rows, Step(s, e).rows)
  {
    if e.id in s.calls {
      CallStepKeepsInv(s, e);
    }
  }

  lemma CallStepKeepsInv(s: System, e: Event)
    requires Inv(s) && e.id in s.calls
    ensures Inv(Step(s, e)) && RowsKept(s.rows, Step(s, e).rows)
  {
    var c := s.calls[e.id];
    var cache := CacheOf(s, c.instance);
    assert StageInv(s.rows, c.stage) && CacheInv(s.rows, cache);
    match e
    case GetActive(_, _) =>
    case Rotate(_, _) =>
    case Select(_, _) => ReadStepKeepsInv(s, e);
    case Lookup(_) => ReadStepKeepsInv(s, e);
    case ImportKey(_) => ReadStepKeepsInv(s, e);
    case MarkRotated(id) => RowsStep(s, id, RotateAll(s.rows), Clearing);
    case ClearCache(id) => MoveKeepsInv(s, id, map[], Minting);
    case InsertKey(id, kid, pair, createdAt) =>
      MoveKeepsInv(s, id, cache, Failed);
      if kid !in s.rows {
        RowsStep(s, id, s.rows[kid := NewKey(pair, createdAt)], Caching(kid, PrivateKey(pair), PublicKey(pair)));
      }
    case StoreInCache(id) =>
      if c.stage.Caching? {
        MoveKeepsInv(s, id, cache[c.stage.kid := c.stage.key], Returned(c.stage.kid, c.stage.key, c.stage.pub));
      }
  }

  lemma ReadStepKeepsInv(s: System, e: Event)
    requires Inv(s) && e.id in s.calls && (e.Select? || e.Lookup? || e.ImportKey?)
    ensures Inv(Step(s, e)) && Step(s, e).rows == s.rows
  {
    var c := s.calls[e.id];
    var cache := CacheOf(s, c.instance);
    assert StageInv(s.rows, c.stage) && CacheInv(s.rows, cache);
    match e
    case Select(id, choice) =>
      if choice.Some? && choice.value in s.rows {
        MoveKeepsInv(s, id, cache, Holding(choice.value, s.rows[choice.value]));
      }
      MoveKeepsInv(s, id, cache, Minting);
    case Lookup(id) =>
      if c.stage.Holding? {
        MoveKeepsInv(s, id, cache, Importing(c.stage.kid, c.stage.row));
        if c.stage.kid in cache {
          MoveKeepsInv(s, id, cache, Returned(c.stage.kid, cache[c.stage.kid], c.stage.row.publicJwk));
        }
      }
    case ImportKey(id) =>
      if c.stage.Importing? {
        var key := Import(c.stage.row.privateJwk);
        MoveKeepsInv(s, id, cache[c.stage.kid := key], Returned(c.stage.kid, key, c.stage.row.publicJwk));
      }
  }

  lemma {:induction false} RunKeepsInv(s: System, es: seq<Event>)
    requires Inv(s)
    ensures Inv(Run(s, es)) && RowsKept(s.rows, Run(s, es).rows)
    decreases |es|
  {
    if es != [] {
      var s1 := Step(s, es[0]);
      StepKeepsInv(s, es[0]);
      RunKeepsInv(s1, es[1..]);
      forall k | k in s.rows
        ensures k in Run(s, es).rows && SameMaterial(s.rows[k], Run(s, es).rows[k])
      {
        assert SameMaterial(s.rows[k], s1.rows[k]) && SameMaterial(s1.rows[k], Run(s1, es[1..]).rows[k]);
      }
    }
  }

  /**
   Whatever the instances do, a key handed out for signing is the one the table holds under its kid,
   with or without the cache, and the matching public key is published under that kid from then on.
   */
  lemma ReturnedKeysStayPublished(before: seq<Event>, id: nat, after: seq<Event>)
    requires id in Run(INIT, before).calls && Run(INIT, before).calls[id].stage.Returned?
    ensures var s := Run(INIT, before);
            var r := s.calls[id].stage;
            && r.kid in s.rows && r.key == Import(s.rows[r.kid].privateJwk)
            && var later := Run(s, after);
            && r.kid in Jwks(later.rows) && Jwks(later.rows)[r.kid] == r.pub && Verifies(r.pub, r.key)
  {
    RunKeepsInv(INIT, before);
    var s := Run(INIT, before);
    assert StageInv(s.rows, s.calls[id].stage);
    RunKeepsInv(s, after);
    var later := Run(s, after);
    var kid := s.calls[id].stage.kid;
    assert RowOk(later.rows[kid]) && SameMaterial(s.rows[kid], later.rows[kid]);
  }

  /** A key that was rotated out is never selected again. */
  lemma RotatedKeysAreNotSelected(before: seq<Event>, kid: string, after: seq<Event>)
    requires kid in Run(INIT, before).rows && Run(INIT, before).rows[kid].status.Rotated?
    ensures !LatestActive(Run(Run(INIT, before), after).rows, kid)
  {
    RunKeepsInv(INIT, before);
    RunKeepsInv(Run(INIT, before), after);
    assert SameMaterial(Run(INIT, before).rows[kid], Run(Run(INIT, before), after).rows[kid]);
  }

  /** A call of rotateKey retires the keys of its time for good: none of them is selected ever after. */
  lemma RotationRetiresKeys(before: seq<Event>, id: nat, kid: string, after: seq<Event>)
    requires var s := Run(INIT, before);
             id in s.calls && s.calls[id].stage.Marking? && kid in s.rows
    ensures var s1 := Step(Run(INIT, before), MarkRotated(id));
            && kid in s1.rows && !LatestActive(Run(s1, after).rows, kid)
            && kid in Jwks(Run(s1, after).rows)
  {
    RunKeepsInv(INIT, before);
    var s := Run(INIT, before);
    StepKeepsInv(s, MarkRotated(id));
    var s1 := Step(s, MarkRotated(id));
    RunKeepsInv(s1, after);
    assert SameMaterial(s1.rows[kid], Run(s1, after).rows[kid]) && RowOk(s1.rows[kid]);
    assert RowOk(Run(s1, after).rows[kid]);
  }

  /** A rotation changes the status of active keys only: a revoked key does not come back. */
  lemma RotateAllExactly(rows: KeyTable, kid: string)
    ensures RotateAll(rows).Keys == rows.Keys
    ensures kid in rows ==>
              RotateAll(rows)[kid] == rows[kid].(status := if rows[kid].status == Active then Rotated
                                                 else rows[kid].status)
  {
  }

  /** A call that selects goes on to a stored latest active key, and to minting only if no key is active. */
  lemma SelectExactly(s: System, id: nat, choice: Option<string>)
    requires id in s.calls && s.calls[id].stage.Selecting?
    ensures var s' := Step(s, Select(id, choice));
            && s' == s.(calls := s.calls[id := s'.calls[id]]) && s'.calls[id].instance == s.calls[id].instance
            && match s'.calls[id].stage
               case Holding(kid, row) => choice == Some(kid) && LatestActive(s.rows, kid) && row == s.rows[kid]
               case Minting => choice == None && forall k | k in s.rows :: s.rows[k].status != Active
               case stage => s' == s
  {
  }

  /** A new key is active, signs what its public half verifies, and is selected unless a later active key is stored. */
  lemma NewKeyIsSelected(rows: KeyTable, kid: string, pair: nat, createdAt: int)
    requires kid !in rows
    requires forall k | k in rows && rows[k].status.Active? :: rows[k].createdAt <= createdAt
    ensures var rows' := rows[kid := NewKey(pair, createdAt)];
            && LatestActive(rows', kid) && Verifies(rows'[kid].publicJwk, Import(rows'[kid].privateJwk))
            && Entry(rows', kid) == Jwk(PublicKey(pair), kid, "RS256", "sig")
  {
  }

  /** Published are exactly the keys that are active or rotated, each with its own public half. */
  lemma JwksExactly(rows: KeyTable, kid: string)
    ensures kid in Jwks(rows) <==> kid in rows && rows[kid].status != Revoked
    ensures kid in Jwks(rows) ==> Jwks(rows)[kid] == rows[kid].publicJwk
  {
  }

  // ---------------------------------------------------------------------------------------------
  // Calls that nobody interrupts
  // ---------------------------------------------------------------------------------------------

  lemma RunFour(s: System, a: Event, b: Event, c: Event, d: Event)
    ensures Run(s, [a, b, c, d]) == Step(Step(Step(Step(s, a), b), c), d)
  {
    var es := [a, b, c, d];
    assert es[1..] == [b, c, d] && [b, c, d][1..] == [c, d] && [c, d][1..] == [d] && [d][1..] == [];
    assert Run(Step(Step(s, a), b), [c, d]) == Step(Step(Step(Step(s, a), b), c), d) by {
      assert Run(Step(Step(Step(s, a), b), c), [d]) == Step(Step(Step(Step(s, a), b), c), d);
    }
  }

  /** What a call has come to: its stage, the table, and the cache of its instance. */
  ghost predicate Stands(s: System, id: nat, instance: nat, rows: KeyTable, cache: Cache, stage: Stage) {
    id in s.calls && s.calls[id] == Call(instance, stage) && s.rows == rows && CacheOf(s, instance) == cache
  }

  /**
   A lone getActiveSigningKey returns the stored key of the row it selected, cached or not, and keeps it
   in the cache.
   */
  lemma LoneGetActiveReturns(s: System, id: nat, instance: nat, kid: string)
    requires Inv(s) && id !in s.calls && LatestActive(s.rows, kid)
    ensures var key := Import(s.rows[kid].privateJwk);
            Stands(Run(s, [GetActive(id, instance), Select(id, Some(kid)), Lookup(id), ImportKey(id)]), id, instance,
                   s.rows, CacheOf(s, instance)[kid := key], Returned(kid, key, s.rows[kid].publicJwk))
  {
    RunFour(s, GetActive(id, instance), Select(id, Some(kid)), Lookup(id), ImportKey(id));
    var row, cache := s.rows[kid], CacheOf(s, instance);
    var s1 := Step(s, GetActive(id, instance));
    assert Stands(s1, id, instance, s.rows, cache, Selecting);
    var s2 := Step(s1, Select(id, Some(kid)));
    assert Stands(s2, id, instance, s.rows, cache, Holding(kid, row));
    assert CacheInv(s.rows, cache);
    var s3 := Step(s2, Lookup(id));
    if kid in cache {
      assert cache[kid := cache[kid]] == cache;
      assert Stands(s3, id, instance, s.rows, cache, Returned(kid, cache[kid], row.publicJwk));
    } else {
      assert Stands(s3, id, instance, s.rows, cache, Importing(kid, row));
    }
  }

  /** Without an active key, a lone getActiveSigningKey stores a new one and returns it. */
  lemma LoneGetActiveMints(s: System, id: nat, instance: nat, kid: string, pair: nat, createdAt: int)
    requires id !in s.calls && NoActive(s.rows) && kid !in s.rows
    ensures Stands(Run(s, [GetActive(id, instance), Select(id, None), InsertKey(id, kid, pair, createdAt),
                           StoreInCache(id)]), id, instance,
                   s.rows[kid := NewKey(pair, createdAt)], CacheOf(s, instance)[kid := PrivateKey(pair)],
                   Returned(kid, PrivateKey(pair), PublicKey(pair)))
  {
    RunFour(s, GetActive(id, instance), Select(id, None), InsertKey(id, kid, pair, createdAt), StoreInCache(id));
    var cache, rows' := CacheOf(s, instance), s.rows[kid := NewKey(pair, createdAt)];
    var s1 := Step(s, GetActive(id, instance));
    assert Stands(s1, id, instance, s.rows, cache, Selecting);
    var s2 := Step(s1, Select(id, None));
    assert Stands(s2, id, instance, s.rows, cache, Minting);
    var s3 := Step(s2, InsertKey(id, kid, pair, createdAt));
    assert Stands(s3, id, instance, rows', cache, Caching(kid, PrivateKey(pair), PublicKey(pair)));
  }

  /** A lone rotateKey retires every active key, empties its instance's cache, and returns the one new key. */
  lemma LoneRotateReturns(s: System, id: nat, instance: nat, kid: string, pair: nat, createdAt: int)
    requires id !in s.calls && kid !in s.rows
    ensures Stands(Step(Run(s, [Rotate(id, instance), MarkRotated(id), ClearCache(id),
                                InsertKey(id, kid, pair, createdAt)]), StoreInCache(id)), id, instance,
                   RotateAll(s.rows)[kid := NewKey(pair, createdAt)], map[kid := PrivateKey(pair)],
                   Returned(kid, PrivateKey(pair), PublicKey(pair)))
  {
    RunFour(s, Rotate(id, instance), MarkRotated(id), ClearCache(id), InsertKey(id, kid, pair, createdAt));
    var retired := RotateAll(s.rows);
    var s1 := Step(s, Rotate(id, instance));
    assert Stands(s1, id, instance, s.rows, CacheOf(s, instance), Marking);
    var s2 := Step(s1, MarkRotated(id));
    assert Stands(s2, id, instance, retired, CacheOf(s, instance), Clearing);
    var s3 := Step(s2, ClearCache(id));
    assert Stands(s3, id, instance, retired, map[], Minting);
    var s4 := Step(s3, InsertKey(id, kid, pair, createdAt));
    assert Stands(s4, id, instance, retired[kid := NewKey(pair, createdAt)], map[],
                  Caching(kid, PrivateKey(pair), PublicKey(pair)));
  }

  // ---------------------------------------------------------------------------------------------
  // One instance
  // ---------------------------------------------------------------------------------------------

  lemma LatestExists(rows: KeyTable, candidates: set<string>) returns (kid: string)
    requires candidates != {} && forall k | k in candidates :: k in rows
    ensures kid in candidates && forall k | k in candidates :: rows[k].createdAt <= rows[kid].createdAt
    decreases |candidates|
  {
    var one :| one in candidates;
    var rest := candidates - {one};
    kid := one;
    if rest != {} {
      var best := LatestExists(rows, rest);
      kid := if rows[best].createdAt > rows[one].createdAt then best else one;
      forall k | k in candidates
        ensures rows[k].createdAt <= rows[kid].createdAt
      {
        assert k == one || k in rest;
      }
    }
  }

  /** Of the published keys all but the rest are listed, and the rest is no later than any of them. */
  ghost predicate Listed(rows: KeyTable, keys: seq<Jwk>, rest: set<string>) {
    && (forall k | k in rest :: k in Jwks(rows))
    && (forall i | 0 <= i < |keys| ::
          keys[i].kid in Jwks(rows) && keys[i].kid !in rest && keys[i] == Entry(rows, keys[i].kid))
    && (forall k | k in Jwks(rows) && k !in rest :: Entry(rows, k) in keys)
    && (forall i, j | 0 <= i < j < |keys| :: keys[i].kid != keys[j].kid)
    && (forall i, j | 0 <= i < j < |keys| :: NoOlder(rows, keys[i].kid, keys[j].kid))
    && (forall i, k | 0 <= i < |keys| && k in rest :: NoOlder(rows, keys[i].kid, k))
  }

  lemma ListNext(rows: KeyTable, keys: seq<Jwk>, rest: set<string>, kid: string)
    requires Listed(rows, keys, rest) && kid in rest && kid in rows
    requires forall k | k in rest :: k in rows && rows[k].createdAt <= rows[kid].createdAt
    ensures Listed(rows, keys + [Entry(rows, kid)], rest - {kid})
  {
    var keys', rest' := keys + [Entry(rows, kid)], rest - {kid};
    assert forall i | 0 <= i < |keys| :: keys'[i] == keys[i];
    forall k | k in Jwks(rows) && k !in rest'
      ensures Entry(rows, k) in keys'
    {
      if k == kid {
        assert keys'[|keys|] == Entry(rows, k);
      } else {
        assert Entry(rows, k) in keys;
      }
    }
  }

  lemma AllListed(rows: KeyTable, keys: seq<Jwk>)
    requires Listed(rows, keys, {})
    ensures Publishes(rows, keys)
  {
  }

  class Database {
    var rows: KeyTable

    constructor ()
      ensures rows == map[]
    {
      rows := map[];
    }
  }

  class SigningKeyService {
    const db: Database
    var keyCache: Cache

    ghost predicate Valid()
      reads this, db
    {
      CacheInv(db.rows, keyCache)
    }

    constructor (db: Database)
      ensures this.db == db && Valid() && keyCache == map[]
    {
      this.db := db;
      keyCache := map[];
    }

    method GenerateKeyPair(kid: string, pair: nat, createdAt: int) returns (ok: bool)
      requires Valid()
      modifies this, db
      ensures Valid()
      ensures ok <==> kid !in old(db.rows)
      ensures ok ==> db.rows == old(db.rows)[kid := NewKey(pair, createdAt)]
      ensures ok ==> keyCache == old(keyCache)[kid := PrivateKey(pair)]
      ensures !ok ==> db.rows == old(db.rows) && keyCache == old(keyCache)
    {
      if kid in db.rows {
        return false;
      }
      db.rows := db.rows[kid := KeyRow("RS256", PublicKey(pair), ExportedPrivate(PrivateKey(pair)), Active, createdAt)];
      keyCache := keyCache[kid := PrivateKey(pair)];
      ok := true;
    }

    /**
     The answer is the latest active row's own key, as if there were no cache; without an active row a
     new key is made.
     */
    method GetActiveSigningKey(newKid: string, newPair: nat, createdAt: int)
      returns (found: bool, kid: string, key: PrivateKey, pub: PublicKey)
      requires Valid()
      modifies this, db
      ensures Valid()
      ensures !NoActive(old(db.rows)) ==>
                found && db.rows == old(db.rows) && LatestActive(db.rows, kid) && Stored(db.rows, kid, key, pub)
      ensures NoActive(old(db.rows)) ==>
                && (found <==> newKid !in old(db.rows))
                && (found ==>
                      && kid == newKid && db.rows == old(db.rows)[kid := NewKey(newPair, createdAt)]
                      && Stored(db.rows, kid, key, pub))
                && (!found ==> db.rows == old(db.rows))
    {
      var active := set k | k in db.rows && db.rows[k].status.Active?;
      if active == {} {
        assert NoActive(db.rows) by {
          assert forall k | k in db.rows && db.rows[k].status.Active? :: k in active;
        }
        found := GenerateKeyPair(newKid, newPair, createdAt);
        return found, newKid, PrivateKey(newPair), PublicKey(newPair);
      }
      ghost var best := LatestExists(db.rows, active);
      kid :| kid in active && forall k | k in active :: db.rows[k].createdAt <= db.rows[kid].createdAt;
      var row := db.rows[kid];
      assert db.rows[kid].status.Active?;
      forall k | k in db.rows && db.rows[k].status.Active?
        ensures db.rows[k].createdAt <= row.createdAt
      {
        assert k in active;
      }
      if kid in keyCache {
        key := keyCache[kid];
      } else {
        key := Import(row.privateJwk);
        keyCache := keyCache[kid := key];
      }
      found, pub := true, row.publicJwk;
      assert kid in active;
    }

    method GetJwks() returns (keys: seq<Jwk>)
      ensures Publishes(db.rows, keys)
    {
      var rows := db.rows;
      var rest := set k | k in rows && rows[k].status in {Active, Rotated};
      keys := [];
      while rest != {}
        invariant Listed(rows, keys, rest)
        decreases |rest|
      {
        ghost var latest := LatestExists(rows, rest);
        var kid :| kid in rest && forall k | k in rest :: rows[k].createdAt <= rows[kid].createdAt;
        ListNext(rows, keys, rest, kid);
        keys := keys + [Jwk(rows[kid].publicJwk, kid, rows[kid].algorithm, "sig")];
        rest := rest - {kid};
      }
      AllListed(rows, keys);
    }

    method RotateKey(kid: string, pair: nat, createdAt: int) returns (ok: bool)
      requires Valid()
      modifies this, db
      ensures Valid()
      ensures ok <==> kid !in old(db.rows)
      ensures ok ==> db.rows == RotateAll(old(db.rows))[kid := NewKey(pair, createdAt)]
      ensures ok ==> keyCache == map[kid := PrivateKey(pair)]
      ensures !ok ==> db.rows == RotateAll(old(db.rows)) && keyCache == map[]
    {
      db.rows := map k | k in db.rows ::
        if db.rows[k].status == Active then db.rows[k].(status := Rotated) else db.rows[k];
      keyCache := map[];
      ok := GenerateKeyPair(kid, pair, createdAt);
    }
  }
}
