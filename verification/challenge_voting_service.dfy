/** challengeVotingService: unlike the other stores it issues Ids from a counter that
    only grows, answers `null` for a missing Id on `getById`, pins the Id on `update`,
    and always starts a new challenge with no votes. */
module ChallengeVotingService {
  import opened Wrappers
  import opened Js
  import opened Seqs
  import opened KeyedStore

  const ChallengeNotFound := "Challenge not found"

  /** The module-level state: the `challenges` array and the `nextId` counter. */
  datatype Db = Db(challenges: Store, nextId: int)

  /** Module load: `nextId = Math.max(...Ids) + 1` over the seed data. */
  function Load(seed: Store): (db: Db)
    requires |seed| > 0 && WellKeyed(seed)
    ensures db.challenges == seed
    ensures forall i :: 0 <= i < |seed| ==> IdOf(seed[i]) < db.nextId
  {
    Db(seed, NextId(seed))
  }

  /** `getById`: a copy of the first challenge with the Id, or `null`. */
  function GetById(db: Db, id: int): (r: Option<Object>)
    ensures r.None? <==> forall j :: 0 <= j < |db.challenges| ==> !HasId(db.challenges[j], id)
    ensures r.Some? ==>
      && HasId(r.value, id)
      && exists k :: 0 <= k < |db.challenges| && db.challenges[k] == r.value
           && forall j :: 0 <= j < k ==> !HasId(db.challenges[j], id)
  {
    var k := IndexOf(db.challenges, id);
    if k == -1 then None else Some(db.challenges[k])
  }

  /** A challenge created without an `Id` of its own is fetched back under the counter's
      Id, provided no stored challenge already carries that Id. */
  lemma CreateThenGetById(db: Db, data: Object, now: Value)
    requires "Id" !in data
    requires forall j :: 0 <= j < |db.challenges| ==> !HasId(db.challenges[j], db.nextId)
    ensures var (db', rec) := Create(db, data, now);
      GetById(db', db.nextId) == Some(rec)
  {
    var (db', rec) := Create(db, data, now);
    var s := db.challenges;
    assert db'.challenges == s + [rec];
    assert HasId(rec, db.nextId);
    assert db'.challenges[|s|] == rec;
    assert forall j :: 0 <= j < |s| ==> db'.challenges[j] == s[j];
    assert IndexOf(db'.challenges, db.nextId) == |s|;
  }

  /** A challenge created with an `Id` some stored challenge already has is shadowed:
      `getById` keeps returning the earlier one. */
  lemma CreateWithTakenIdIsShadowed(db: Db, data: Object, now: Value, id: int)
    requires "Id" in data && data["Id"] == Num(id)
    requires GetById(db, id).Some?
    ensures var (db', rec) := Create(db, data, now);
      && HasId(rec, id)
      && GetById(db', id) == GetById(db, id)
  {
    var (db', rec) := Create(db, data, now);
    var s := db.challenges;
    assert db'.challenges == s + [rec];
    var k := IndexOf(s, id);
    assert forall j :: 0 <= j < |s| ==> db'.challenges[j] == s[j];
    assert IndexOf(db'.challenges, id) == k;
  }

  /** `create`: `{ Id: nextId++, ...data, votes: [], createdAt, updatedAt }`. The spread
      comes after `Id`, so an `Id` in the data wins; `votes` comes after the spread, so
      the data's votes never survive. */
  function Create(db: Db, data: Object, now: Value): (r: (Db, Object))
    ensures r.0.nextId == db.nextId + 1
    ensures r.0.challenges == db.challenges + [r.1]
    ensures Get(r.1, "votes") == Arr([])
    ensures Get(r.1, "Id") == if "Id" in data then data["Id"] else Num(db.nextId)
    ensures forall f :: f != "votes" && f != "createdAt" && f != "updatedAt" && f in data ==> Get(r.1, f) == data[f]
  {
    var rec := Spread(Spread(map["Id" := Num(db.nextId)], data),
                      map["votes" := Arr([]), "createdAt" := now, "updatedAt" := now]);
    (Db(db.challenges + [rec], db.nextId + 1), rec)
  }

  /** `update`: merges the data into the first challenge with the Id, in place, then pins
      `Id` back to the requested one and stamps `updatedAt`. */
  function Update(db: Db, id: int, data: Object, now: Value): (r: Result<(Db, Object)>)
    ensures r.Failure? <==> forall j :: 0 <= j < |db.challenges| ==> !HasId(db.challenges[j], id)
    ensures r.Failure? ==> r.error == ChallengeNotFound
    ensures r.Success? ==>
      var k := IndexOf(db.challenges, id);
      var (db', rec) := r.value;
      && db'.nextId == db.nextId
      && |db'.challenges| == |db.challenges|
      && db'.challenges[k] == rec
      && HasId(rec, id)
      && (forall j :: 0 <= j < |db.challenges| && j != k ==> db'.challenges[j] == db.challenges[j])
      && Merged(rec, db.challenges[k], data)
  {
    var k := IndexOf(db.challenges, id);
    if k == -1 then Failure(ChallengeNotFound)
    else
      var rec := Pinned(db.challenges[k], data, id, now);
      Success((Db(db.challenges[k := rec], db.nextId), rec))
  }

  /** Apart from `Id` and `updatedAt`, `rec` holds the data's fields over the prior ones. */
  ghost predicate Merged(rec: Object, prior: Object, data: Object) {
    && (forall f :: f in data && f != "Id" && f != "updatedAt" ==> Get(rec, f) == data[f])
    && (forall f :: f !in data && f != "Id" && f != "updatedAt" ==> Get(rec, f) == Get(prior, f))
  }

  /** `{ ...prior, ...data, Id: id, updatedAt }`. */
  function Pinned(prior: Object, data: Object, id: int, now: Value): (rec: Object)
    ensures HasId(rec, id) && Get(rec, "updatedAt") == now
    ensures Merged(rec, prior, data)
  {
    Spread(Spread(prior, data), map["Id" := Num(id), "updatedAt" := now])
  }

  /** `delete`: removes the first challenge with the Id; the counter is untouched. */
  function Delete(db: Db, id: int): (r: Result<Db>)
    ensures r.Failure? <==> forall j :: 0 <= j < |db.challenges| ==> !HasId(db.challenges[j], id)
    ensures r.Failure? ==> r.error == ChallengeNotFound
    ensures r.Success? ==>
      && r.value.nextId == db.nextId
      && WithoutIndex(r.value.challenges, db.challenges, IndexOf(db.challenges, id))
  {
    var k := IndexOf(db.challenges, id);
    if k == -1 then Failure(ChallengeNotFound)
    else Success(Db(RemoveAt(db.challenges, k), db.nextId))
  }

  predicate IsActive(c: Object) {
    Get(c, "status") == Str("active")
  }

  /** `getActiveChallenge`: the first challenge whose status is 'active', or `null`. */
  function GetActiveChallenge(db: Db): (r: Option<Object>)
    ensures r.None? <==> forall j :: 0 <= j < |db.challenges| ==> !IsActive(db.challenges[j])
    ensures r.Some? ==>
      && IsActive(r.value)
      && (exists k :: 0 <= k < |db.challenges| && db.challenges[k] == r.value
            && forall j :: 0 <= j < k ==> !IsActive(db.challenges[j]))
  {
    var k := FindIndex(db.challenges, IsActive);
    if k == -1 then None else Some(db.challenges[k])
  }

  /** `getChallengesByStatus(status)`: the challenges with that status, in store order. */
  function GetChallengesByStatus(db: Db, status: Value): (r: Store)
    ensures forall i :: 0 <= i < |r| ==> r[i] in db.challenges && Get(r[i], "status") == status
    ensures forall j :: 0 <= j < |db.challenges| && Get(db.challenges[j], "status") == status ==> db.challenges[j] in r
    ensures Subseq(r, db.challenges)
    ensures |r| == Count(db.challenges, WithStatus(status))
  {
    FilterSubseq(db.challenges, WithStatus(status));
    Filter(db.challenges, WithStatus(status))
  }

  function WithStatus(status: Value): Object -> bool {
    (c: Object) => Get(c, "status") == status
  }

  /** A store operation as the service exposes it. */
  datatype Op =
    | CreateOp(data: Object, now: Value)
    | UpdateOp(id: int, data: Object, now: Value)
    | DeleteOp(id: int)

  /** The state after one operation (a thrown error leaves the state as it was). */
  function Apply(db: Db, op: Op): Db {
    match op
    case CreateOp(data, now) => Create(db, data, now).0
    case UpdateOp(id, data, now) =>
      (match Update(db, id, data, now) case Success(p) => p.0 case Failure(_) => db)
    case DeleteOp(id) =>
      (match Delete(db, id) case Success(d) => d case Failure(_) => db)
  }

  /** Runs a sequence of operations, returning the final state and the counter values
      issued by the creates, in order. */
  function Run(db: Db, ops: seq<Op>): (Db, seq<int>)
    decreases |ops|
  {
    if ops == [] then (db, [])
    else
      var issued := if ops[0].CreateOp? then [db.nextId] else [];
      var (end, rest) := Run(Apply(db, ops[0]), ops[1..]);
      (end, issued + rest)
  }

  predicate StrictlyIncreasing(xs: seq<int>) {
    forall i, j :: 0 <= i < j < |xs| ==> xs[i] < xs[j]
  }

  /** Counter Ids are never reissued, whatever is deleted in between: the values handed
      out are strictly increasing, start at the current counter and stay below the final one. */
  lemma {:induction false} IssuedIdsNeverRepeat(db: Db, ops: seq<Op>)
    ensures var (end, issued) := Run(db, ops);
      && StrictlyIncreasing(issued)
      && (forall i :: 0 <= i < |issued| ==> db.nextId <= issued[i] < end.nextId)
      && db.nextId <= end.nextId
    decreases |ops|
  {
    if ops != [] {
      var next := Apply(db, ops[0]);
      assert next.nextId == if ops[0].CreateOp? then db.nextId + 1 else db.nextId;
      IssuedIdsNeverRepeat(next, ops[1..]);
    }
  }

  /** Right after loading, every Id the counter issues is above every seeded Id. */
  lemma IssuedIdsAboveSeed(seed: Store, ops: seq<Op>)
    requires |seed| > 0 && WellKeyed(seed)
    ensures forall i, k :: 0 <= i < |Run(Load(seed), ops).1| && 0 <= k < |seed| ==>
      IdOf(seed[k]) < Run(Load(seed), ops).1[i]
  {
    IssuedIdsNeverRepeat(Load(seed), ops);
  }
}
