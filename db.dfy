/**
  `js/db.js` as a class: the module-level handle `db` and the database it opens,
  updated in place by the five exported operations. Each method's outcome and
  new state are those of the matching step in DbSpec, whose properties are
  proved there.
 */
module Db {
  import opened JsValues
  import opened NewestFirst
  import opened DbSpec

  class AssessmentStore {
    var handle: Option<nat>
    var connections: nat
    var version: nat
    var storeExists: bool
    var indexes: map<string, Index>
    var records: map<Key, Obj>
    var nextKey: int

    /** The state as a value. */
    function Model(): DbState
      reads this
    {
      DbState(handle, connections, version, storeExists, indexes, records, nextKey)
    }

    ghost predicate Valid()
      reads this
    {
      Model().Valid()
    }

    /** The page has just loaded (`let db;`) in a profile where the database does not exist yet. */
    constructor ()
      ensures Model() == Absent && Valid()
    {
      handle, connections, version := None, 0, 0;
      storeExists, indexes, records, nextKey := false, map[], map[], 1;
    }

    /**
      The page has just loaded (`let db;`) in a profile whose database is already
      on disk, with whatever schema, records and generator earlier sessions left.
     */
    constructor Reload(disk: DbState)
      requires disk.Valid() && disk.handle.None?
      ensures Model() == disk && Valid()
    {
      handle, connections, version := None, disk.connections, disk.version;
      storeExists, indexes, records, nextKey := disk.storeExists, disk.indexes, disk.records, disk.nextKey;
    }

    /** `openDB()`; `succeeds` says whether the host fires `success` or `error` on the open request. */
    method OpenDB(succeeds: bool) returns (r: Outcome<nat>)
      requires Valid()
      modifies this
      ensures Valid()
      ensures (Model(), r) == Open(old(Model()), succeeds)
    {
      OpenKeepsValid(Model(), succeeds);
      if !succeeds {
        return TxFailed;
      }
      if version < DbVersion {
        UpgradeNeeded();
        version := DbVersion;
      }
      connections := connections + 1;
      handle := Some(connections);
      r := Ok(connections);
    }

    /** The `onupgradeneeded` handler. */
    method UpgradeNeeded()
      modifies this
      ensures Model() == Upgrade(old(Model()))
    {
      if !storeExists {
        storeExists := true;
        records, nextKey := map[], 1;
        indexes := map[];
        indexes := indexes[ByDate := Index(TimestampField, false)];
        indexes := indexes[ByRisk := Index(RiskScoreField, false)];
      }
    }

    /** `saveAssessment(payload)` at time `now`; `fault` says whether the host fails the write. */
    method SaveAssessment(payload: Obj, now: int, fault: bool) returns (r: Outcome<Key>)
      requires Valid()
      modifies this
      ensures Valid()
      ensures (Model(), r) == Save(old(Model()), payload, now, fault)
    {
      SaveKeepsValid(Model(), payload, now, fault);
      if handle.None? {
        return NotInitialized;
      }
      var data := payload[TimestampField := Number(now)];
      if IdFree(data) {
        if fault || nextKey > MaxGeneratedKey {
          return TxFailed;
        }
        var k := NumKey(nextKey);
        records := records[k := data[KeyPath := KeyValue(k)]];
        nextKey := nextKey + 1;
        return Ok(k);
      }
      var key := KeyOf(data[KeyPath]);
      if key.None? {
        return InvalidKey;
      }
      var k := key.value;
      if fault || k in records {
        return TxFailed;
      }
      records := records[k := data];
      nextKey := Advance(nextKey, k);
      r := Ok(k);
    }

    /**
      `getAllAssessments()`: the `by_date` index yields every record once, in
      an order this model leaves open, and the result is sorted newest first.
     */
    method GetAllAssessments(fault: bool) returns (r: Outcome<seq<Obj>>)
      requires Valid()
      ensures handle.None? ==> r == NotInitialized
      ensures handle.Some? && fault ==> r == TxFailed
      ensures handle.Some? && !fault ==> r.Ok? && IsListing(records, r.value)
      ensures r.Ok? ==> |r.value| == |records|
    {
      if handle.None? {
        return NotInitialized;
      }
      if fault {
        return TxFailed;
      }
      var fetched: seq<Obj> := [];
      var pending := records.Keys;
      ghost var seen: set<Obj> := {};
      while pending != {}
        invariant pending <= records.Keys
        invariant seen == set k | k in records.Keys - pending :: records[k]
        invariant multiset(fetched) == multiset(seen)
        invariant |fetched| + |pending| == |records|
        decreases |pending|
      {
        var k :| k in pending;
        assert records[k] !in seen by {
          forall j | j in records.Keys - pending
            ensures records[j] != records[k]
          {
            StoredRecordsDiffer(Model(), j, k);
          }
        }
        fetched := fetched + [records[k]];
        seen := seen + {records[k]};
        pending := pending - {k};
        assert seen == set j | j in records.Keys - pending :: records[j];
      }
      assert seen == records.Values;
      var listing := SortNewestFirst(fetched);
      SortIsPermutation(fetched);
      SortIsNewestFirst(fetched);
      assert |listing| == |multiset(listing)| == |fetched|;
      r := Ok(listing);
    }

    /** `getAssessmentById(id)`; `fault` says whether the host fails the read. */
    method GetAssessmentById(id: Key, fault: bool) returns (r: Outcome<Obj>)
      requires Valid()
      ensures r == GetById(Model(), id, fault)
      ensures r.Ok? ==> id in records && r.value == records[id] && r.value[KeyPath] == KeyValue(id)
      ensures handle.Some? && !fault && id !in records ==> r == NotFound
    {
      if handle.None? {
        return NotInitialized;
      }
      if fault {
        return TxFailed;
      }
      if id in records {
        return Ok(records[id]);
      }
      r := NotFound;
    }

    /** `deleteAssessment(id)`; `fault` says whether the host fails the write. */
    method DeleteAssessment(id: Key, fault: bool) returns (r: Outcome<bool>)
      requires Valid()
      modifies this
      ensures Valid()
      ensures (Model(), r) == Delete(old(Model()), id, fault)
    {
      DeleteKeepsValid(Model(), id, fault);
      if handle.None? {
        return NotInitialized;
      }
      if fault {
        return TxFailed;
      }
      records := records - {id};
      r := Ok(true);
    }
  }

  lemma ValuesOfOne(k: Key, v: Obj)
    ensures map[k := v].Values == {v}
  {
    assert map[k := v][k] == v;
  }

  lemma ValuesOfTwo(j: Key, v: Obj, k: Key, w: Obj)
    requires j != k
    ensures map[j := v, k := w].Values == {v, w}
  {
    assert map[j := v, k := w][j] == v && map[j := v, k := w][k] == w;
  }

  lemma OnlyListingOfOne(x: Obj, r: seq<Obj>)
    requires multiset(r) == multiset{x}
    ensures r == [x]
  {
    assert |r| == |multiset(r)| == 1;
    assert r[0] in multiset(r);
  }

  /** A fresh profile, opened, after two id-free saves at `earlier` and then `later`. */
  method OpenAndSaveTwo(a: Obj, b: Obj, earlier: int, later: int) returns (store: AssessmentStore)
    requires IdFree(a) && IdFree(b)
    ensures fresh(store) && store.Valid()
    ensures store.Model() == DbState(Some(1), 1, DbVersion, true, SchemaIndexes,
      map[NumKey(1) := Stamp(a, earlier)[KeyPath := Number(1)], NumKey(2) := Stamp(b, later)[KeyPath := Number(2)]], 3)
  {
    store := new AssessmentStore();
    var handle := store.OpenDB(true);
    assert store.Model() == DbState(Some(1), 1, DbVersion, true, SchemaIndexes, map[], 1);
    var ka := store.SaveAssessment(a, earlier, false);
    assert store.Model() == DbState(Some(1), 1, DbVersion, true, SchemaIndexes, map[NumKey(1) := Stamp(a, earlier)[KeyPath := Number(1)]], 2);
    var kb := store.SaveAssessment(b, later, false);
  }

  /** Listing a store that holds two records with different timestamps puts the newer first. */
  method ListTwo(store: AssessmentStore, older: Obj, newer: Obj) returns (both: Outcome<seq<Obj>>)
    requires store.Valid() && store.handle.Some?
    requires store.records == map[NumKey(1) := older, NumKey(2) := newer]
    requires older != newer && Time(older) < Time(newer)
    ensures both == Ok([newer, older])
  {
    ValuesOfTwo(NumKey(1), older, NumKey(2), newer);
    assert multiset(store.records.Values) == multiset{older, newer};
    both := store.GetAllAssessments(false);
    ListingOfTwo(older, newer, both.value);
  }

  /** Deleting key 1 from that store leaves only the other record. */
  method DeleteFirst(store: AssessmentStore, older: Obj, newer: Obj)
    requires store.Valid() && store.handle.Some?
    requires store.records == map[NumKey(1) := older, NumKey(2) := newer]
    modifies store
    ensures store.Valid() && store.handle.Some?
    ensures store.records == map[NumKey(2) := newer]
  {
    var deleted := store.DeleteAssessment(NumKey(1), false);
    assert store.records == map[NumKey(1) := older, NumKey(2) := newer] - {NumKey(1)};
  }

  /** Listing a store that holds one record yields just that record. */
  method ListOne(store: AssessmentStore, k: Key, only: Obj) returns (rest: Outcome<seq<Obj>>)
    requires store.Valid() && store.handle.Some?
    requires store.records == map[k := only]
    ensures rest == Ok([only])
  {
    ValuesOfOne(k, only);
    rest := store.GetAllAssessments(false);
    OnlyListingOfOne(only, rest.value);
  }

  /**
    Two assessments saved one after the other in a fresh profile, A before B,
    are listed B first; once A is deleted, only B is listed.
   */
  method SaveTwiceListDelete(a: Obj, b: Obj, earlier: int, later: int)
    returns (both: Outcome<seq<Obj>>, rest: Outcome<seq<Obj>>)
    requires IdFree(a) && IdFree(b) && earlier < later
    ensures both == Ok([Stamp(b, later)[KeyPath := Number(2)], Stamp(a, earlier)[KeyPath := Number(1)]])
    ensures rest == Ok([Stamp(b, later)[KeyPath := Number(2)]])
  {
    var recA := Stamp(a, earlier)[KeyPath := Number(1)];
    var recB := Stamp(b, later)[KeyPath := Number(2)];
    assert recA != recB by { assert recA[KeyPath] != recB[KeyPath]; }
    assert Time(recA) == earlier && Time(recB) == later;
    var store := OpenAndSaveTwo(a, b, earlier, later);
    both := ListTwo(store, recA, recB);
    DeleteFirst(store, recA, recB);
    rest := ListOne(store, NumKey(2), recB);
  }
}
