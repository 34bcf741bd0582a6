/**
  Sequences of calls on the store, page reloads included, and the keys its
  generator hands out along the way: each id-free save that succeeds gets a key
  larger than every key handed out before it, deletes and reloads in between
  notwithstanding.
 */
module KeyHistory {
  import opened JsValues
  import opened DbSpec

  datatype Call =
    | ReloadCall                  // the page is loaded again: `db` is unset, the database on disk stays
    | OpenCall(succeeds: bool)
    | SaveCall(payload: Obj, now: int, fault: bool)
    | DeleteCall(id: Key, fault: bool)

  /** One call: the next state, and the generated key it returned, if it returned one. */
  function Step(s: DbState, c: Call): (r: (DbState, seq<int>))
    ensures |r.1| <= 1
    ensures !c.SaveCall? ==> r.1 == []
    ensures c.SaveCall? && r.1 != [] ==> Save(s, c.payload, c.now, c.fault).1 == Ok(NumKey(r.1[0]))
    ensures c.SaveCall? && IdFree(c.payload) && Save(s, c.payload, c.now, c.fault).1.Ok? ==>
      r.1 == [Save(s, c.payload, c.now, c.fault).1.value.n]
    ensures c.ReloadCall? ==> !r.0.Initialized() && r.0.records == s.records && r.0.nextKey == s.nextKey
  {
    match c
    case ReloadCall => (s.(handle := None), [])
    case OpenCall(succeeds) => (Open(s, succeeds).0, [])
    case SaveCall(payload, now, fault) =>
      var (t, r) := Save(s, payload, now, fault);
      (t, if IdFree(payload) && r.Ok? && r.value.NumKey? then [r.value.n] else [])
    case DeleteCall(id, fault) => (Delete(s, id, fault).0, [])
  }

  /** The calls run one after another: the final state and every generated key, in order. */
  function Run(s: DbState, calls: seq<Call>): (r: (DbState, seq<int>))
    ensures |r.1| <= |calls|
    ensures (forall i :: 0 <= i < |calls| ==> !calls[i].SaveCall?) ==> r.1 == []
    ensures calls != [] ==> Step(s, calls[0]).1 <= r.1
    decreases |calls|
  {
    if calls == [] then (s, [])
    else
      var (t, first) := Step(s, calls[0]);
      var (u, later) := Run(t, calls[1..]);
      (u, first + later)
  }

  /** One call (a reload too) keeps the invariant, never moves the generator back, and hands out its current number. */
  lemma StepAdvances(s: DbState, c: Call)
    requires s.Valid()
    ensures var (t, keys) := Step(s, c);
      && t.Valid() && s.nextKey <= t.nextKey
      && |keys| <= 1
      && (forall i :: 0 <= i < |keys| ==> keys[i] == s.nextKey && s.nextKey < t.nextKey)
  {
    match c
    case ReloadCall =>
    case OpenCall(succeeds) => OpenKeepsValid(s, succeeds);
    case SaveCall(payload, now, fault) =>
      SaveKeepsValid(s, payload, now, fault);
      if IdFree(payload) && Save(s, payload, now, fault).1.Ok? {
        SaveGeneratesFreshKey(s, payload, now, fault);
      }
    case DeleteCall(id, fault) => DeleteKeepsValid(s, id, fault);
  }

  /**
    Over any sequence of calls, the generated keys strictly increase and lie
    between the generator's number before and after, so none is handed out twice.
   */
  lemma {:induction false} GeneratedKeysIncrease(s: DbState, calls: seq<Call>)
    requires s.Valid()
    ensures var (u, keys) := Run(s, calls);
      && u.Valid() && s.nextKey <= u.nextKey
      && (forall i :: 0 <= i < |keys| ==> s.nextKey <= keys[i] < u.nextKey)
      && (forall i, j :: 0 <= i < j < |keys| ==> keys[i] < keys[j])
    decreases |calls|
  {
    if calls != [] {
      var (t, first) := Step(s, calls[0]);
      StepAdvances(s, calls[0]);
      GeneratedKeysIncrease(t, calls[1..]);
      var (u, later) := Run(t, calls[1..]);
      assert Run(s, calls) == (u, first + later);
    }
  }
}
