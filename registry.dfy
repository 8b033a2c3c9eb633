/** The in-memory employee registry: one ordered, mutable list of records and
    the five operations on it (list, create, get, update, delete). */
module Registry {
  import opened Records

  /** The registry's invariant: every stored id is present and non-empty, and
      no two stored records share an id. */
  predicate WellFormed(s: seq<Employee>) {
    (forall j :: 0 <= j < |s| ==> Truthy(s[j].id)) &&
    (forall j, k :: 0 <= j < k < |s| ==> s[j].id != s[k].id)
  }

  /** No stored record carries the id `key`. */
  predicate Unused(s: seq<Employee>, key: string) {
    forall j :: 0 <= j < |s| ==> s[j].id != Some(key)
  }

  class Store {
    /** The stored records, in insertion order. */
    var db: seq<Employee>

    constructor ()
      ensures db == []
    {
      db := [];
    }

    /** Every stored record, in order; nothing changes. */
    method List() returns (r: seq<Employee>)
      ensures r == db
    {
      r := db;
    }

    /** Stores `payload` under the fresh id `newId` (drawn by the caller from a
        random source) at the end of the list and returns the stored record. */
    method Create(newId: string, payload: Employee) returns (r: Employee)
      requires newId != "" && Unused(db, newId)
      modifies this
      ensures r == payload.(id := Some(newId))
      ensures db == old(db) + [r]
      ensures old(WellFormed(db)) ==> WellFormed(db)
    {
      r := payload.(id := Some(newId));
      if WellFormed(db) { CreateKeepsWellFormed(db, newId, payload); }
      db := db + [r];
    }

    /** The first stored record whose id is `key`, or NotFound. */
    method Get(key: string) returns (r: Result<Employee>)
      ensures r.NotFound? <==> Unused(db, key)
      ensures r.Ok? ==> exists i :: 0 <= i < |db| && db[i] == r.value && db[i].id == Some(key) && Unused(db[..i], key)
      ensures r == match FirstWhere(db, IdEquals(key)) case None => NotFound case Some(i) => Ok(db[i])
    {
      match FirstWhere(db, IdEquals(key))
      case None =>
        r := NotFound;
      case Some(i) =>
        r := Ok(db[i]);
    }

    /** Replaces the first record whose id is `key` by `payload` with its id
        forced to `key`, and returns the new record; NotFound (and no change)
        when no record has that id. */
    method Update(key: string, payload: Employee) returns (r: Result<Employee>)
      modifies this
      ensures match FirstWhere(old(db), IdEquals(key))
        case None => r == NotFound && db == old(db)
        case Some(i) => r == Ok(payload.(id := Some(key))) && db == old(db)[i := r.value]
      ensures old(WellFormed(db)) ==> WellFormed(db)
    {
      match FirstWhere(db, IdEquals(key))
      case None =>
        r := NotFound;
      case Some(i) =>
        var updated := payload.(id := Some(key));
        IndexOfScanned(db, IdEquals(key), i);
        var index := IndexOf(db, db[i]);
        if WellFormed(db) { UpdateKeepsWellFormed(db, key, index, payload); }
        db := db[index := updated];
        r := Ok(updated);
    }

    /** Removes and returns the first record whose id is present and
        non-empty; `key` plays no part in which record that is. NotFound (and
        no change) when no record has a non-empty id. */
    method Delete(key: string) returns (r: Result<Employee>)
      modifies this
      ensures match FirstWhere(old(db), IdPresent)
        case None => r == NotFound && db == old(db)
        case Some(i) => r == Ok(old(db)[i]) && db == old(db)[..i] + old(db)[i + 1..]
      ensures old(WellFormed(db)) ==> WellFormed(db)
    {
      match FirstWhere(db, IdPresent)
      case None =>
        r := NotFound;
      case Some(i) =>
        var removed := db[i];
        IndexOfScanned(db, IdPresent, i);
        if WellFormed(db) { DeleteKeepsWellFormed(db, i); }
        db := RemoveFirst(db, removed);
        r := Ok(removed);
    }
  }

  /** Appending a record under a fresh non-empty id keeps the invariant. */
  lemma CreateKeepsWellFormed(s: seq<Employee>, newId: string, payload: Employee)
    requires WellFormed(s) && newId != "" && Unused(s, newId)
    ensures WellFormed(s + [payload.(id := Some(newId))])
  {
  }

  /** Overwriting the record at `i`, whose id is `key`, by a payload carrying
      the id `key` keeps the invariant. */
  lemma UpdateKeepsWellFormed(s: seq<Employee>, key: string, i: nat, payload: Employee)
    requires WellFormed(s) && i < |s| && s[i].id == Some(key)
    ensures WellFormed(s[i := payload.(id := Some(key))])
  {
  }

  /** Removing one record keeps the invariant. */
  lemma DeleteKeepsWellFormed(s: seq<Employee>, i: nat)
    requires WellFormed(s) && i < |s|
    ensures WellFormed(s[..i] + s[i + 1..])
  {
  }

  /** With the invariant in force every record has a non-empty id, so the
      delete scan stops at the first record: a non-empty store loses its head. */
  lemma DeleteTakesHead(s: seq<Employee>)
    requires WellFormed(s) && |s| > 0
    ensures FirstWhere(s, IdPresent) == Some(0)
    ensures RemoveFirst(s, s[0]) == s[1..]
  {
  }

  /** A record just created under a fresh id is what a lookup of that id finds. */
  lemma {:induction false} GetAfterCreate(s: seq<Employee>, newId: string, payload: Employee)
    requires Unused(s, newId)
    ensures FirstWhere(s + [payload.(id := Some(newId))], IdEquals(newId)) == Some(|s|)
  {
    var t := s + [payload.(id := Some(newId))];
    assert Holds(IdEquals(newId), t[|s|]);
    assert forall j :: 0 <= j < |s| ==> t[j] == s[j] && !Holds(IdEquals(newId), t[j]);
  }

  /** After an update of `key` at position `i`, a lookup of `key` finds the
      new record at the same position. */
  lemma {:induction false} GetAfterUpdate(s: seq<Employee>, key: string, i: nat, payload: Employee)
    requires FirstWhere(s, IdEquals(key)) == Some(i)
    ensures FirstWhere(s[i := payload.(id := Some(key))], IdEquals(key)) == Some(i)
  {
    var t := s[i := payload.(id := Some(key))];
    assert Holds(IdEquals(key), t[i]);
    assert forall j :: 0 <= j < i ==> t[j] == s[j] && !Holds(IdEquals(key), t[j]);
  }

  /** Under the invariant, once the record at `i` is removed no record with its
      id is left. */
  lemma GetAfterDelete(s: seq<Employee>, i: nat)
    requires WellFormed(s) && i < |s|
    ensures Unused(s[..i] + s[i + 1..], s[i].id.value)
  {
  }

  /** The create, get, update, delete, get sequence on one record. */
  method RoundTrip() returns (created: Employee, fetched: Result<Employee>, updated: Result<Employee>,
                              deleted: Result<Employee>, after: Result<Employee>)
    ensures created == Employee(Some("u1"), "Ana", None, "Sales")
    ensures fetched == Ok(created)
    ensures updated == Ok(Employee(Some("u1"), "Ana B", None, "Marketing"))
    ensures deleted == updated
    ensures after == NotFound
  {
    var store := new Store();
    created := store.Create("u1", Employee(None, "Ana", None, "Sales"));
    fetched := store.Get("u1");
    updated := store.Update("u1", Employee(None, "Ana B", None, "Marketing"));
    deleted := store.Delete("u1");
    after := store.Get("u1");
  }

  /** Deleting the second of two records by its own id removes the first one
      instead, and the requested record can still be fetched. */
  method DeleteIgnoresKey() returns (deleted: Result<Employee>, after: Result<Employee>)
    ensures deleted == Ok(Employee(Some("u1"), "Ana", None, "Sales"))
    ensures after == Ok(Employee(Some("u2"), "Luis", None, "IT"))
  {
    var store := new Store();
    var first := store.Create("u1", Employee(None, "Ana", None, "Sales"));
    var second := store.Create("u2", Employee(None, "Luis", None, "IT"));
    assert Holds(IdPresent, store.db[0]);
    deleted := store.Delete("u2");
    assert store.db == [second] && store.db[0].id == Some("u2");
    after := store.Get("u2");
  }
}
