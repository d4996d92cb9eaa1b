/** The generic CRUD layer (`CRUDBase`) over one collection, and the database
    made of the service's four collections. A collection is kept in natural
    (insertion) order, which is the order `find_one` and an unsorted cursor
    see; its map view is `Docs`. */
module Store {
  import opened Wrappers
  import opened Documents
  import opened Query
  import opened ModelBase
  import opened Models

  /** The records of one collection, in natural order. */
  type Table = seq<Entry>

  function Ids(t: Table): set<Id>
  {
    set e | e in t :: e.id
  }

  predicate UniqueIds(t: Table)
  {
    forall i, j :: 0 <= i < j < |t| ==> t[i].id != t[j].id
  }

  /** The collection as a map from `_id` to record. */
  function Docs(t: Table): (m: map<Id, Fields>)
    ensures m.Keys == Ids(t)
    ensures forall e :: e in t && UniqueIds(t) ==> m[e.id] == e.fields
  {
    if t == [] then map[]
    else
      var rest := Docs(t[1..]);
      IdsCons(t);
      if UniqueIds(t) then HeadIdFresh(t); rest[t[0].id := t[0].fields]
      else rest[t[0].id := t[0].fields]
  }

  lemma IdsCons(t: Table)
    requires t != []
    ensures Ids(t) == Ids(t[1..]) + {t[0].id}
  {
    assert forall e :: e in t <==> e == t[0] || e in t[1..];
  }

  /** Under unique ids, the tail's ids are unique and exclude the head's. */
  lemma HeadIdFresh(t: Table)
    requires t != [] && UniqueIds(t)
    ensures UniqueIds(t[1..]) && t[0].id !in Ids(t[1..])
  {
    forall e | e in t[1..] ensures e.id != t[0].id {
      var k :| 0 <= k < |t[1..]| && t[1..][k] == e;
      assert t[k + 1] == e;
    }
    forall i, j | 0 <= i < j < |t[1..]| ensures t[1..][i].id != t[1..][j].id {
      assert t[1..][i] == t[i + 1] && t[1..][j] == t[j + 1];
    }
  }

  // ---------------------------------------------------------------------
  // The filters `CRUDBase` issues
  // ---------------------------------------------------------------------

  /** `{"_id": ObjectId(id), "is_active": active}`. */
  function ById(id: Id, active: bool): (f: Filter)
    ensures forall e :: Matches(e, f) <==> e.id == id && "is_active" in e.fields && e.fields["is_active"] == Bool(active)
  {
    var f := Filter(Some(id), map["is_active" := Bool(active)]);
    assert forall e :: Matches(e, f) <==> FieldMatches(e.fields, "is_active", Bool(active)) && e.id == id by {
      assert f.fields.Keys == {"is_active"};
    }
    f
  }

  /** `{key: value}`. */
  function ByField(key: string, value: Value): (f: Filter)
    ensures forall e :: Matches(e, f) <==> FieldMatches(e.fields, key, value)
  {
    var f := Filter(None, map[key := value]);
    assert f.fields.Keys == {key};
    f
  }

  /** `{key: value, "is_active": True}`, for a key other than `is_active`. */
  function ByFieldActive(key: string, value: Value): (f: Filter)
    requires key != "is_active"
    ensures forall e :: Matches(e, f) <==> FieldMatches(e.fields, key, value) && IsActive(e.fields)
  {
    var f := Filter(None, map[key := value, "is_active" := Bool(true)]);
    assert f.fields.Keys == {key, "is_active"};
    f
  }

  /** `{"is_active": True}`. */
  function ActiveOnly(): (f: Filter)
    ensures forall e :: Matches(e, f) <==> IsActive(e.fields)
  {
    var f := Filter(None, map["is_active" := Bool(true)]);
    assert f.fields.Keys == {"is_active"};
    f
  }

  // ---------------------------------------------------------------------
  // Reads: get, get_not_active, get_by_name
  // ---------------------------------------------------------------------

  /** `get`: the record with that `_id`, provided it is active. */
  function Get(t: Table, id: Id): (r: Option<Entry>)
    ensures r.Some? <==> exists e :: e in t && e.id == id && IsActive(e.fields)
    ensures r.Some? ==> r.value in t && r.value.id == id && IsActive(r.value.fields)
  {
    FindFirst(t, ById(id, true))
  }

  /** `get_not_active`: the record with that `_id`, provided it is soft-deleted. */
  function GetNotActive(t: Table, id: Id): (r: Option<Entry>)
    ensures r.Some? <==> exists e :: e in t && e.id == id && IsInactive(e.fields)
    ensures r.Some? ==> r.value in t && r.value.id == id && IsInactive(r.value.fields)
  {
    FindFirst(t, ById(id, false))
  }

  /** `get_by_name`: the first active record with that name. */
  function GetByName(t: Table, name: string): (r: Option<Entry>)
    ensures r.Some? <==> exists e :: e in t && e.fields.Keys >= {"name"} && e.fields["name"] == Str(name) && IsActive(e.fields)
    ensures r.Some? ==> r.value in t && "name" in r.value.fields && r.value.fields["name"] == Str(name) && IsActive(r.value.fields)
  {
    FindFirst(t, ByFieldActive("name", Str(name)))
  }

  /** With unique ids, `get` returns the stored record itself. */
  lemma GetIsStored(t: Table, id: Id)
    requires UniqueIds(t) && Get(t, id).Some?
    ensures id in Docs(t) && Get(t, id) == Some(Entry(id, Docs(t)[id]))
  {
  }

  // ---------------------------------------------------------------------
  // The writes, as transformations of the table
  // ---------------------------------------------------------------------

  /** Replace the record whose `_id` is `e.id` by `e`, in place. */
  function Put(t: Table, e: Entry): (r: Table)
    ensures |r| == |t|
    ensures forall i :: 0 <= i < |t| ==> r[i] == if t[i].id == e.id then e else t[i]
  {
    seq(|t|, i requires 0 <= i < |t| => if t[i].id == e.id then e else t[i])
  }

  /** Delete the record with that `_id`. */
  function Without(t: Table, id: Id): (r: Table)
    ensures |r| <= |t|
    ensures forall x :: x in r <==> x in t && x.id != id
  {
    if t == [] then [] else (if t[0].id == id then [] else [t[0]]) + Without(t[1..], id)
  }

  lemma PutIds(t: Table, e: Entry)
    requires e.id in Ids(t)
    ensures Ids(Put(t, e)) == Ids(t)
  {
    var r := Put(t, e);
    forall x | x in Ids(r) ensures x in Ids(t) {
      var i :| 0 <= i < |r| && r[i].id == x;
      assert t[i] in t;
    }
    forall x | x in Ids(t) ensures x in Ids(r) {
      var i :| 0 <= i < |t| && t[i].id == x;
      assert r[i] in r;
    }
  }

  lemma AppendIds(t: Table, e: Entry)
    requires e.id !in Ids(t)
    ensures Ids(t + [e]) == Ids(t) + {e.id}
    ensures UniqueIds(t) ==> UniqueIds(t + [e])
  {
    assert forall x :: x in t + [e] <==> x in t || x == e;
    if UniqueIds(t) {
      var r := t + [e];
      forall i, j | 0 <= i < j < |r| ensures r[i].id != r[j].id {
        if j == |t| {
          assert r[i] == t[i] && t[i] in t;
        }
      }
    }
  }

  /** Inserting a record with a fresh `_id` adds exactly that record: `get`
      finds it when it is active, and every other lookup by `_id` answers as
      before. */
  lemma {:induction false} InsertThenGet(t: Table, e: Entry, other: Id)
    requires e.id !in Ids(t) && other != e.id
    ensures Get(t + [e], e.id) == if IsActive(e.fields) then Some(e) else None
    ensures Get(t + [e], other) == Get(t, other)
    ensures GetNotActive(t + [e], other) == GetNotActive(t, other)
  {
    SelectAppend(t, e, ById(e.id, true));
    SelectAppend(t, e, ById(other, true));
    SelectAppend(t, e, ById(other, false));
  }

  /** Replacing a record by one with `is_active` false is a soft delete:
      afterwards `get` misses it and `get_not_active` returns it, and lookups
      of other records answer as before. */
  lemma {:induction false} SoftDeleteThenGet(t: Table, e: Entry, other: Id)
    requires UniqueIds(t) && e.id in Ids(t) && IsInactive(e.fields) && other != e.id
    ensures Get(Put(t, e), e.id) == None
    ensures GetNotActive(Put(t, e), e.id) == Some(e)
    ensures Get(Put(t, e), other) == Get(t, other)
  {
    var r := Put(t, e);
    assert e in r by {
      var i :| 0 <= i < |t| && t[i].id == e.id;
      assert r[i] == e;
    }
    forall x | x in r && x.id == e.id ensures x == e {
      var i :| 0 <= i < |r| && r[i] == x;
    }
    PutOthers(t, e, ById(other, true));
  }

  /** Lookups that only match records with another `_id` are not affected by a
      replacement. */
  lemma {:induction false} PutOthers(t: Table, e: Entry, f: Filter)
    requires forall x :: Matches(x, f) ==> x.id != e.id
    ensures Select(Put(t, e), f) == Select(t, f)
  {
    if t != [] {
      assert Put(t, e)[1..] == Put(t[1..], e);
      PutOthers(t[1..], e, f);
    }
  }

  /** A hard delete removes one record: the collection has one record fewer
      and `get` no longer finds it. */
  lemma {:induction false} DeleteThenGet(t: Table, id: Id)
    requires UniqueIds(t) && id in Ids(t)
    ensures |Without(t, id)| == |t| - 1
    ensures Get(Without(t, id), id) == None
    ensures Ids(Without(t, id)) == Ids(t) - {id}
  {
    var r := Without(t, id);
    if t[0].id == id {
      assert id !in Ids(t[1..]) by {
        forall x | x in t[1..] ensures x.id != id {
          var k :| 0 <= k < |t[1..]| && t[1..][k] == x;
          assert t[k + 1] == x;
        }
      }
      WithoutAbsent(t[1..], id);
    } else {
      assert id in Ids(t[1..]) by {
        var x :| x in t && x.id == id;
        assert x != t[0];
      }
      assert UniqueIds(t[1..]) by {
        forall i, j | 0 <= i < j < |t[1..]| ensures t[1..][i].id != t[1..][j].id {
          assert t[1..][i] == t[i + 1] && t[1..][j] == t[j + 1];
        }
      }
      DeleteThenGet(t[1..], id);
    }
    assert forall x :: x in r <==> x in t && x.id != id;
  }

  lemma {:induction false} WithoutAbsent(t: Table, id: Id)
    requires id !in Ids(t)
    ensures Without(t, id) == t
  {
    if t != [] {
      assert t[0] in t;
      assert Ids(t[1..]) <= Ids(t) by {
        forall x | x in Ids(t[1..]) ensures x in Ids(t) {
          var e :| e in t[1..] && e.id == x;
          assert e in t;
        }
      }
      WithoutAbsent(t[1..], id);
    }
  }

  /** The documents a cursor `find(f).sort("name", -1).skip(skip).limit(limit)`
      yields: matching ones only, sorted by name descending, no more than the
      limit asks, and all of them when neither skip nor limit is given. */
  lemma CursorWindow(t: Table, f: Filter, skip: nat, limit: int)
    ensures var r := Window(SortByNameDesc(Select(t, f)), skip, limit);
      && (forall e :: e in r ==> e in t && Matches(e, f))
      && (limit != 0 ==> |r| <= Abs(limit))
      && SortedByNameDesc(r)
      && (skip == 0 && limit == 0 ==> multiset(r) == multiset(Select(t, f)))
  {
    var sorted := SortByNameDesc(Select(t, f));
    SortByNameDescCorrect(Select(t, f));
    var r := Window(sorted, skip, limit);
    forall e | e in r ensures e in t && Matches(e, f) {
      var i :| 0 <= i < |r| && r[i] == e;
      assert sorted[skip + i] in multiset(sorted);
    }
    if skip == 0 && limit == 0 {
      assert r == sorted;
    }
  }

  // ---------------------------------------------------------------------
  // One collection, updated in place
  // ---------------------------------------------------------------------

  /** Every record has its own `_id` and passed its model's validation. */
  ghost predicate TableValid(kind: Kind, t: Table)
  {
    && UniqueIds(t)
    && forall e :: e in t ==> Conforms(kind, e.fields)
  }

  lemma AppendValid(kind: Kind, t: Table, e: Entry)
    requires TableValid(kind, t) && Conforms(kind, e.fields) && e.id !in Ids(t)
    ensures TableValid(kind, t + [e])
  {
    AppendIds(t, e);
  }

  lemma PutValid(kind: Kind, t: Table, e: Entry)
    requires TableValid(kind, t) && Conforms(kind, e.fields) && e.id in Ids(t)
    ensures TableValid(kind, Put(t, e))
  {
    var r := Put(t, e);
    forall i, j | 0 <= i < j < |r| ensures r[i].id != r[j].id {
      assert r[i].id == t[i].id && r[j].id == t[j].id;
    }
    forall x | x in r ensures Conforms(kind, x.fields) {
      var i :| 0 <= i < |r| && r[i] == x;
      assert t[i] in t;
    }
  }

  /** What a failed write raises. `MissingRecord` stands for the
      `AttributeError` a write raises after `get` found nothing. */
  datatype StoreError = ValidationError | DuplicateKey | UpdateError | MissingRecord

  class Collection {
    const kind: Kind
    var entries: Table

    ghost predicate Valid()
      reads this
    {
      TableValid(kind, entries)
    }

    constructor (kind: Kind)
      ensures Valid() && this.kind == kind && entries == []
    {
      this.kind := kind;
      entries := [];
    }

    /** `commit()`: a new document is stamped by `pre_insert`, validated and
        inserted under the `_id` the driver hands out (`oid`). A stored one
        with modified fields is stamped by `pre_update`, validated and written
        back under its `_id`; a stored one with none is left as it is. */
    method Commit(d: Document, now: Time, oid: Id) returns (r: Result<Entry, StoreError>)
      requires Valid() && d.Valid()
      modifies this`entries, d
      ensures Valid() && d.Valid()
      ensures old(d.isCreated) && old(d.modified) == {} ==>
        && r == Ok(Entry(old(d.id.value), old(d.data)))
        && entries == old(entries) && d.data == old(d.data) && d.id == old(d.id)
      ensures !old(d.isCreated) || old(d.modified) != {} ==>
        d.data == if old(d.isCreated) then UpdateStamped(old(d.data), now) else InsertStamped(old(d.data), now)
      ensures (!old(d.isCreated) || old(d.modified) != {}) && !Conforms(kind, d.data) ==>
        r == Err(ValidationError) && entries == old(entries) && d.id == old(d.id)
      ensures Conforms(kind, d.data) && !old(d.isCreated) ==>
        if oid in Ids(old(entries)) then
          r == Err(DuplicateKey) && entries == old(entries) && d.id == None
        else
          r == Ok(Entry(oid, d.data)) && entries == old(entries) + [Entry(oid, d.data)] && d.id == Some(oid)
      ensures Conforms(kind, d.data) && old(d.isCreated) && old(d.modified) != {} ==>
        d.id == old(d.id) &&
        if old(d.id.value) in Ids(old(entries)) then
          r == Ok(Entry(old(d.id.value), d.data)) && entries == Put(old(entries), Entry(old(d.id.value), d.data))
        else
          r == Err(UpdateError) && entries == old(entries)
    {
      if !d.isCreated {
        d.PreInsert(now);
        if !Conforms(kind, d.data) {
          return Err(ValidationError);
        }
        if oid in Ids(entries) {
          return Err(DuplicateKey);
        }
        var e := Entry(oid, d.data);
        AppendValid(kind, entries, e);
        entries := entries + [e];
        d.id := Some(oid);
        d.isCreated := true;
        d.modified := {};
        r := Ok(e);
      } else if d.modified == {} {
        r := Ok(Entry(d.id.value, d.data));
      } else {
        d.PreUpdate(now);
        if !Conforms(kind, d.data) {
          return Err(ValidationError);
        }
        var id := d.id.value;
        if id !in Ids(entries) {
          return Err(UpdateError);
        }
        var e := Entry(id, d.data);
        PutValid(kind, entries, e);
        entries := Put(entries, e);
        d.modified := {};
        r := Ok(e);
      }
    }

    /** `get_multi`: the cursor's documents appended one by one. */
    method GetMulti(skip: nat, limit: int) returns (objects: seq<Entry>)
      ensures objects == Window(SortByNameDesc(Select(entries, ActiveOnly())), skip, limit)
      ensures forall e :: e in objects ==> e in entries && IsActive(e.fields)
      ensures limit != 0 ==> |objects| <= Abs(limit)
      ensures SortedByNameDesc(objects)
    {
      var active := ActiveOnly();
      var cursor := Window(SortByNameDesc(Select(entries, active)), skip, limit);
      objects := [];
      var i := 0;
      while i < |cursor|
        invariant 0 <= i <= |cursor|
        invariant objects == cursor[..i]
      {
        objects := objects + [cursor[i]];
        i := i + 1;
      }
      assert objects == cursor;
      CursorWindow(entries, active, skip, limit);
    }

    /** `create`: a new document built from the input (so `is_active` defaults
        to true), committed. */
    method Create(input: Fields, now: Time, oid: Id) returns (r: Result<Entry, StoreError>)
      requires Valid()
      modifies this`entries
      ensures Valid()
      ensures var data := InsertStamped(WithDefaults(input), now);
        if !Conforms(kind, data) then r == Err(ValidationError) && entries == old(entries)
        else if oid in Ids(old(entries)) then r == Err(DuplicateKey) && entries == old(entries)
        else r == Ok(Entry(oid, data)) && entries == old(entries) + [Entry(oid, data)]
    {
      var d := new Document(input);
      r := Commit(d, now, oid);
    }

    /** `_update`: fetch with `get`, set the patch's keys, commit. A record
        `get` does not find makes the source dereference `None`. */
    method Update(id: Id, patch: Fields, now: Time) returns (r: Result<Entry, StoreError>)
      requires Valid()
      modifies this`entries
      ensures Valid()
      ensures Get(old(entries), id).None? ==> r == Err(MissingRecord) && entries == old(entries)
      ensures Get(old(entries), id).Some? && patch == map[] ==>
        r == Ok(Get(old(entries), id).value) && entries == old(entries)
      ensures Get(old(entries), id).Some? && patch != map[] ==>
        var data := UpdateStamped(Get(old(entries), id).value.fields + patch, now);
        if Conforms(kind, data) then r == Ok(Entry(id, data)) && entries == Put(old(entries), Entry(id, data))
        else r == Err(ValidationError) && entries == old(entries)
    {
      var found := Get(entries, id);
      if found.None? {
        return Err(MissingRecord);
      }
      var d := new Document.Loaded(found.value);
      d.Update(patch);
      assert patch == map[] <==> d.modified == {} by {
        if patch != map[] {
          var k :| k in patch;
          assert k in d.modified;
        }
      }
      if patch == map[] {
        assert d.data == found.value.fields;
      }
      r := Commit(d, now, id);
    }

    /** `_remove`: fetch with `get`, delete, report the deleted count. */
    method Remove(id: Id) returns (r: Result<nat, StoreError>)
      requires Valid()
      modifies this`entries
      ensures Valid()
      ensures Get(old(entries), id).None? ==> r == Err(MissingRecord) && entries == old(entries)
      ensures Get(old(entries), id).Some? ==> r == Ok(1) && entries == Without(old(entries), id)
    {
      var found := Get(entries, id);
      if found.None? {
        return Err(MissingRecord);
      }
      WithoutUnique(entries, id);
      entries := Without(entries, id);
      r := Ok(1);
    }

    /** `partial_remove`: `_update` with `is_active` set to false. */
    method PartialRemove(id: Id, now: Time) returns (r: Result<Entry, StoreError>)
      requires Valid()
      modifies this`entries
      ensures Valid()
      ensures Get(old(entries), id).None? ==> r == Err(MissingRecord) && entries == old(entries)
      ensures Get(old(entries), id).Some? ==>
        var data := UpdateStamped(Get(old(entries), id).value.fields["is_active" := Bool(false)], now);
        if Conforms(kind, data) then r == Ok(Entry(id, data)) && entries == Put(old(entries), Entry(id, data))
        else r == Err(ValidationError) && entries == old(entries)
    {
      var found := Get(entries, id);
      if found.None? {
        return Err(MissingRecord);
      }
      var d := new Document.Loaded(found.value);
      d.Update(map["is_active" := Bool(false)]);
      assert d.data == found.value.fields["is_active" := Bool(false)];
      assert "is_active" in d.modified;
      r := Commit(d, now, id);
    }
  }

  lemma {:induction false} WithoutUnique(t: Table, id: Id)
    requires UniqueIds(t)
    ensures UniqueIds(Without(t, id))
  {
    if t != [] {
      assert UniqueIds(t[1..]) by {
        forall i, j | 0 <= i < j < |t[1..]| ensures t[1..][i].id != t[1..][j].id {
          assert t[1..][i] == t[i + 1] && t[1..][j] == t[j + 1];
        }
      }
      WithoutUnique(t[1..], id);
      var rest := Without(t[1..], id);
      forall x | x in rest ensures x.id != t[0].id {
        var k :| 0 <= k < |t[1..]| && t[1..][k] == x;
        assert t[k + 1] == x;
      }
    }
  }

  /** `partial_remove` keeps the record, clears `is_active`, refreshes
      `updated_at` and keeps every other field; a record that passed
      validation still passes it, so the write-back cannot fail. */
  lemma SoftDeletedFields(kind: Kind, fields: Fields, now: Time)
    ensures var data := UpdateStamped(fields["is_active" := Bool(false)], now);
      && IsInactive(data)
      && (forall k :: k in fields && k != "is_active" && k != "updated_at" ==> k in data && data[k] == fields[k])
      && (Conforms(kind, fields) ==> Conforms(kind, data))
  {
    var data := UpdateStamped(fields["is_active" := Bool(false)], now);
    if Conforms(kind, fields) {
      assert data.Keys == fields.Keys + {"is_active", "updated_at"};
      assert forall k :: k in fields && k != "is_active" && k != "updated_at" ==> data[k] == fields[k];
    }
  }

  /** With unique ids, the active record stored under an `_id` is the one
      `get` returns for it. */
  lemma StoredIsGot(t: Table, e: Entry)
    requires UniqueIds(t) && e in t && IsActive(e.fields)
    ensures Get(t, e.id) == Some(e)
  {
    var found := Get(t, e.id).value;
    var i :| 0 <= i < |t| && t[i] == found;
    var j :| 0 <= j < |t| && t[j] == e;
  }

  // ---------------------------------------------------------------------
  // The database: the four collections
  // ---------------------------------------------------------------------

  /** The contents of the four collections at one moment. */
  datatype Snapshot = Snapshot(accounts: Table, users: Table, roles: Table, userRoles: Table)

  class Database {
    const accounts: Collection
    const users: Collection
    const roles: Collection
    const userRoles: Collection

    ghost predicate Valid()
      reads this, accounts, users, roles, userRoles
    {
      && accounts.kind == AccountKind && users.kind == UserKind
      && roles.kind == RoleKind && userRoles.kind == UserRoleKind
      && accounts.Valid() && users.Valid() && roles.Valid() && userRoles.Valid()
    }

    function Contents(): Snapshot
      reads this, accounts, users, roles, userRoles
    {
      Snapshot(accounts.entries, users.entries, roles.entries, userRoles.entries)
    }

    /** An empty database. */
    constructor ()
      ensures Valid() && Contents() == Snapshot([], [], [], [])
      ensures fresh(accounts) && fresh(users) && fresh(roles) && fresh(userRoles)
    {
      accounts := new Collection(AccountKind);
      users := new Collection(UserKind);
      roles := new Collection(RoleKind);
      userRoles := new Collection(UserRoleKind);
    }
  }
}
