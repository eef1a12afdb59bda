/** The Id-keyed in-memory array behind goalService, milestoneService, reactionService,
    updateService, userService, podService and goalTemplateService: records are plain
    objects, `create` issues `Math.max(...Ids) + 1`, `update` merges with object spread,
    and a missing Id throws `"<Entity> not found"`. */
module KeyedStore {
  import opened Wrappers
  import opened Js
  import opened Seqs

  /** Which service a store backs; only its name (used in error messages) differs. */
  datatype Entity = Entity(name: string)

  function NotFound(e: Entity): string {
    e.name + " not found"
  }

  type Store = seq<Object>

  /** The result of `create`: the grown array and the record handed back. */
  datatype Created = Created(store: Store, record: Object)

  /** The result of `update`: the changed array and the merged record handed back. */
  datatype Updated = Updated(store: Store, record: Object)

  /** `record.Id === id` (the services compare with `parseInt(id)`). */
  predicate HasId(r: Object, id: int) {
    Get(r, "Id") == Num(id)
  }

  /** Every record carries a numeric `Id`, which `Math.max` needs to produce a number. */
  predicate WellKeyed(s: Store) {
    forall i :: 0 <= i < |s| ==> Get(s[i], "Id").Num?
  }

  /** No two records share an Id. */
  predicate UniqueIds(s: Store) {
    forall i, j :: 0 <= i < j < |s| ==> Get(s[i], "Id") != Get(s[j], "Id")
  }

  function IdOf(r: Object): int
    requires Get(r, "Id").Num?
  {
    Get(r, "Id").n
  }

  /** `findIndex(r => r.Id === id)`. */
  function IndexOf(s: Store, id: int): (k: int)
    ensures -1 <= k < |s|
    ensures k >= 0 ==> HasId(s[k], id) && forall j :: 0 <= j < k ==> !HasId(s[j], id)
    ensures k == -1 <==> forall j :: 0 <= j < |s| ==> !HasId(s[j], id)
  {
    FindIndex(s, (r: Object) => HasId(r, id))
  }

  /** `Math.max(...s.map(r => r.Id))` over a non-empty, well-keyed array. */
  function MaxId(s: Store): (m: int)
    requires |s| > 0 && WellKeyed(s)
    ensures forall i :: 0 <= i < |s| ==> IdOf(s[i]) <= m
    ensures exists i :: 0 <= i < |s| && IdOf(s[i]) == m
  {
    if |s| == 1 then IdOf(s[0])
    else
      var rest := MaxId(s[1..]);
      if IdOf(s[0]) >= rest then IdOf(s[0]) else rest
  }

  /** Appending a record above the maximum makes it the new maximum. */
  lemma MaxIdAppend(s: Store, rec: Object)
    requires |s| > 0 && WellKeyed(s)
    requires Get(rec, "Id").Num? && IdOf(rec) > MaxId(s)
    ensures WellKeyed(s + [rec]) && MaxId(s + [rec]) == IdOf(rec)
  {
    var t := s + [rec];
    assert forall i :: 0 <= i < |s| ==> t[i] == s[i];
    assert t[|s|] == rec;
  }

  /** `getAll` hands back a copy of the whole array. */
  function GetAll(s: Store): (r: Store)
    ensures |r| == |s| && forall i :: 0 <= i < |s| ==> r[i] == s[i]
  {
    s
  }

  /** `getById`: the first record with the Id, or the "not found" error. */
  function GetById(e: Entity, s: Store, id: int): (r: Result<Object>)
    ensures r.Failure? <==> forall j :: 0 <= j < |s| ==> !HasId(s[j], id)
    ensures r.Failure? ==> r.error == NotFound(e)
    ensures r.Success? ==>
      && HasId(r.value, id)
      && exists k :: 0 <= k < |s| && s[k] == r.value && forall j :: 0 <= j < k ==> !HasId(s[j], id)
  {
    var k := IndexOf(s, id);
    if k == -1 then Failure(NotFound(e)) else Success(s[k])
  }

  /** The Id `create` issues: one above the largest. */
  function NextId(s: Store): (id: int)
    requires |s| > 0 && WellKeyed(s)
    ensures forall i :: 0 <= i < |s| ==> IdOf(s[i]) < id
  {
    MaxId(s) + 1
  }

  /** `{ ...data, Id: id }`. */
  function WithId(data: Object, id: int): (r: Object)
    ensures Get(r, "Id") == Num(id)
    ensures forall f :: f != "Id" ==> Get(r, f) == Get(data, f)
  {
    Spread(data, map["Id" := Num(id)])
  }

  /** `create`: the data with `Id` set to one more than the largest Id, appended. The
      spread puts `Id` last, so an `Id` in the data is overwritten. */
  function Create(s: Store, data: Object): (r: Created)
    requires |s| > 0 && WellKeyed(s)
    ensures r.store == s + [r.record]
    ensures Get(r.record, "Id") == Num(NextId(s))
    ensures forall f :: f != "Id" ==> Get(r.record, f) == Get(data, f)
    ensures WellKeyed(r.store)
  {
    var rec := WithId(data, NextId(s));
    Created(s + [rec], rec)
  }

  /** `update`: the first record with the Id becomes its old fields overridden by the
      given ones, in place; any other record is untouched. */
  function Update(e: Entity, s: Store, id: int, patch: Object): (r: Result<Updated>)
    ensures r.Failure? <==> forall j :: 0 <= j < |s| ==> !HasId(s[j], id)
    ensures r.Failure? ==> r.error == NotFound(e)
    ensures r.Success? ==>
      var k := IndexOf(s, id);
      && |r.value.store| == |s|
      && r.value.store[k] == r.value.record
      && (forall j :: 0 <= j < |s| && j != k ==> r.value.store[j] == s[j])
      && r.value.record.Keys == s[k].Keys + patch.Keys
      && (forall f :: f in patch ==> Get(r.value.record, f) == patch[f])
      && (forall f :: f !in patch ==> Get(r.value.record, f) == Get(s[k], f))
  {
    var k := IndexOf(s, id);
    if k == -1 then Failure(NotFound(e))
    else
      var rec := Spread(s[k], patch);
      Success(Updated(s[k := rec], rec))
  }

  /** `delete`: removes the first record with the Id, keeping the others in order. */
  function Delete(e: Entity, s: Store, id: int): (r: Result<Store>)
    ensures r.Failure? <==> forall j :: 0 <= j < |s| ==> !HasId(s[j], id)
    ensures r.Failure? ==> r.error == NotFound(e)
    ensures r.Success? ==> WithoutIndex(r.value, s, IndexOf(s, id))
  {
    var k := IndexOf(s, id);
    if k == -1 then Failure(NotFound(e)) else Success(RemoveAt(s, k))
  }

  /** The created record has exactly the data's fields plus `Id`, and its Id is above every
      stored one. */
  lemma CreateAddsOnlyId(s: Store, data: Object)
    requires |s| > 0 && WellKeyed(s)
    ensures Create(s, data).record.Keys == data.Keys + {"Id"}
    ensures forall i :: 0 <= i < |s| ==> IdOf(s[i]) < IdOf(Create(s, data).record)
  {}

  /** After a create the largest Id is the one just issued. */
  lemma CreateRaisesMaxId(s: Store, data: Object)
    requires |s| > 0 && WellKeyed(s)
    ensures MaxId(Create(s, data).store) == NextId(s)
  {
    MaxIdAppend(s, Create(s, data).record);
  }

  /** A created record can be fetched back by the Id it was given. */
  lemma CreateThenGetById(e: Entity, s: Store, data: Object)
    requires |s| > 0 && WellKeyed(s)
    ensures var c := Create(s, data);
      GetById(e, c.store, IdOf(c.record)) == Success(c.record)
  {
    var c := Create(s, data);
    var id := IdOf(c.record);
    forall j | 0 <= j < |s|
      ensures !HasId(c.store[j], id)
    {
      assert c.store[j] == s[j];
    }
    assert c.store[|s|] == c.record && HasId(c.record, id);
    var k := IndexOf(c.store, id);
    assert k != -1;
    assert k == |s|;
  }

  /** Creating keeps the Ids distinct. */
  lemma CreateKeepsIdsUnique(s: Store, data: Object)
    requires |s| > 0 && WellKeyed(s) && UniqueIds(s)
    ensures UniqueIds(Create(s, data).store)
  {
    var c := Create(s, data);
    forall i, j | 0 <= i < j < |c.store|
      ensures Get(c.store[i], "Id") != Get(c.store[j], "Id")
    {
      if j == |s| {
        assert IdOf(c.store[i]) < IdOf(c.record);
      } else {
        assert c.store[i] == s[i] && c.store[j] == s[j];
      }
    }
  }

  /** After an update that does not rewrite the Id, fetching by that Id returns the merged record. */
  lemma UpdateThenGetById(e: Entity, s: Store, id: int, patch: Object)
    requires Update(e, s, id, patch).Success?
    requires "Id" !in patch || patch["Id"] == Num(id)
    ensures GetById(e, Update(e, s, id, patch).value.store, id) == Success(Update(e, s, id, patch).value.record)
  {
    var k := IndexOf(s, id);
    var u := Update(e, s, id, patch).value;
    assert HasId(u.store[k], id);
    forall j | 0 <= j < k
      ensures !HasId(u.store[j], id)
    {
      assert u.store[j] == s[j];
    }
    assert IndexOf(u.store, id) == k;
  }

  /** With distinct Ids, a deleted record can no longer be fetched. */
  lemma DeleteThenGetById(e: Entity, s: Store, id: int)
    requires UniqueIds(s)
    requires Delete(e, s, id).Success?
    ensures GetById(e, Delete(e, s, id).value, id) == Failure(NotFound(e))
  {
    var k := IndexOf(s, id);
    var d := Delete(e, s, id).value;
    forall j | 0 <= j < |d|
      ensures !HasId(d[j], id)
    {
      if j < k {
        assert d[j] == s[j];
      } else {
        assert d[j] == s[j + 1];
        assert Get(s[k], "Id") != Get(s[j + 1], "Id");
      }
    }
  }

  /** Deleting keeps every remaining record's numeric Id. */
  lemma DeleteKeepsWellKeyed(e: Entity, s: Store, id: int)
    requires WellKeyed(s) && Delete(e, s, id).Success?
    ensures WellKeyed(Delete(e, s, id).value)
  {
    var k := IndexOf(s, id);
    var d := Delete(e, s, id).value;
    forall j | 0 <= j < |d|
      ensures Get(d[j], "Id").Num?
    {
      if j < k { assert d[j] == s[j]; } else { assert d[j] == s[j + 1]; }
    }
  }

  /** Some record holds the Id just below the largest one. */
  predicate MaxIdPredecessorPresent(s: Store)
    requires |s| > 0 && WellKeyed(s)
  {
    exists i :: 0 <= i < |s| && IdOf(s[i]) == MaxId(s) - 1
  }

  /** Removing the record holding the largest Id leaves no larger Id behind, and keeps
      any other Id that was present. */
  lemma MaxAfterDeletingMax(e: Entity, s: Store)
    requires |s| >= 2 && WellKeyed(s) && UniqueIds(s)
    ensures Delete(e, s, MaxId(s)).Success?
    ensures var d := Delete(e, s, MaxId(s)).value;
      && |d| > 0 && WellKeyed(d)
      && MaxId(d) < MaxId(s)
      && (MaxIdPredecessorPresent(s) ==> MaxId(d) >= MaxId(s) - 1)
  {
    var m := MaxId(s);
    var i0 :| 0 <= i0 < |s| && IdOf(s[i0]) == m;
    assert HasId(s[i0], m);
    var k := IndexOf(s, m);
    var d := RemoveAt(s, k);
    assert Delete(e, s, m) == Success(d);
    RemovingMaxLeavesSmaller(s, k);
    if MaxIdPredecessorPresent(s) {
      var i :| 0 <= i < |s| && IdOf(s[i]) == m - 1;
      assert i != k by {
        assert HasId(s[k], m);
      }
      RemoveAtKeeps(s, k, i);
    }
  }

  /** Removing the record at `k`, which holds the largest of distinct Ids, leaves only
      smaller Ids. */
  lemma RemovingMaxLeavesSmaller(s: Store, k: nat)
    requires WellKeyed(s) && UniqueIds(s)
    requires k < |s| && |s| >= 2 && IdOf(s[k]) == MaxId(s)
    ensures WellKeyed(RemoveAt(s, k))
    ensures forall j :: 0 <= j < |RemoveAt(s, k)| ==> IdOf(RemoveAt(s, k)[j]) < MaxId(s)
    ensures MaxId(RemoveAt(s, k)) < MaxId(s)
  {
    var d := RemoveAt(s, k);
    forall j | 0 <= j < |d|
      ensures Get(d[j], "Id").Num? && IdOf(d[j]) < MaxId(s)
    {
      var src := if j < k then j else j + 1;
      assert d[j] == s[src];
      assert Get(s[src], "Id") != Get(s[k], "Id");
    }
  }

  /** Ids are not reserved: with distinct Ids, once the record holding the largest Id is deleted, the next
      create issues an Id no larger than the deleted one, and exactly that Id again when
      the next-largest Id is one below it. */
  lemma DeletedMaximumMayBeReissued(e: Entity, s: Store, d: Store, data: Object)
    requires |s| >= 2 && WellKeyed(s) && UniqueIds(s)
    requires Delete(e, s, MaxId(s)) == Success(d)
    ensures |d| > 0 && WellKeyed(d)
    ensures IdOf(Create(d, data).record) <= MaxId(s)
    ensures MaxIdPredecessorPresent(s) ==> IdOf(Create(d, data).record) == MaxId(s)
  {
    MaxAfterDeletingMax(e, s);
    assert Delete(e, s, MaxId(s)).value == d;
    assert IdOf(Create(d, data).record) == NextId(d);
  }
}
