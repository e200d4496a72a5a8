/** The coordinator: the engine coupled to the store. Material changes are written through, plain recurrence is
    remembered in a dirty set and written by the next flush, clears are marked resolved. */
module AnomalyCoordinator {
  import opened AnomalyModel
  import opened AnomalyEngine
  import opened AnomalyStore

  /** The coordinator's whole state: live instances, keys awaiting a flush, and the stored rows. */
  datatype System = System(active: Active, dirty: set<Key>, rows: Rows)

  const EMPTY := System(map[], {}, map[])

  /** One call. The parameter up says whether its store call succeeds; order is the iteration order over the dirty
      set (flush) or over the open rows (restart), which the program leaves open. A restart loses the engine and
      the dirty set and then loads from the store. */
  datatype Op =
    | Observe(d: Detection, at: Time, up: bool)
    | Flush(order: seq<Key>, up: bool)
    | Prune(source: string, cutoff: Time, up: bool)
    | Resolve(subject: SubjectRef, at: Time, up: bool)
    | Restart(loaded: seq<string>, up: bool)

  predicate Possible(s: System, op: Op) {
    match op
    case Flush(order, _) => Enumerates(order, s.dirty)
    case Restart(loaded, _) => Enumerates(loaded, OpenIds(s.rows))
    case _ => true
  }

  function Ids(keys: set<Key>): set<string> {
    set k | k in keys :: IdOf(k)
  }

  function ObserveStep(cfg: Config, s: System, d: Detection, at: Time, up: bool): System {
    if !Accepted(cfg, d) then s
    else
      var active := Fold(cfg, s.active, d, at);
      if Material(cfg, s.active, d) then
        System(active, s.dirty, if up then PutAll(s.rows, RecordsFor(cfg, active, [KeyOf(d)])) else s.rows)
      else
        System(active, s.dirty + {KeyOf(d)}, s.rows)
  }

  function FlushStep(cfg: Config, s: System, order: seq<Key>, up: bool): System {
    System(s.active, {}, if up then PutAll(s.rows, RecordsFor(cfg, s.active, order)) else s.rows)
  }

  function ClearStep(s: System, keys: set<Key>, at: Time, up: bool): System {
    System(s.active - keys, s.dirty - keys, if up then MarkAll(s.rows, Ids(keys), at) else s.rows)
  }

  function RestartStep(cfg: Config, s: System, loaded: seq<string>, up: bool): System
    requires Elems(loaded) <= s.rows.Keys
  {
    System(if up then Restored(cfg, map[], RecordsAt(s.rows, loaded)) else map[], {}, s.rows)
  }

  function Step(cfg: Config, s: System, op: Op): System
    requires Possible(s, op)
  {
    match op
    case Observe(d, at, up) => ObserveStep(cfg, s, d, at, up)
    case Flush(order, up) => FlushStep(cfg, s, order, up)
    case Prune(source, cutoff, up) => ClearStep(s, Idle(s.active, source, cutoff), cutoff, up)
    case Resolve(subject, at, up) => ClearStep(s, AboutSubject(s.active, subject), at, up)
    case Restart(loaded, up) => RestartStep(cfg, s, loaded, up)
  }

  /** A run: its operations can be taken in turn, starting from s and ending in r. */
  ghost predicate Runs(cfg: Config, s: System, ops: seq<Op>, r: System)
    decreases |ops|
  {
    if ops == [] then r == s
    else Possible(s, ops[0]) && Runs(cfg, Step(cfg, s, ops[0]), ops[1..], r)
  }

  // ----- The mutable coordinator -----

  datatype Outcome = Done | DetectionRefused | StoreError

  class Coordinator {
    const engine: Engine
    const store: Store
    var dirty: set<Key>

    ghost function State(): System
      reads this, engine, store
    {
      System(engine.active, dirty, store.rows)
    }

    constructor (engine: Engine, store: Store)
      ensures this.engine == engine && this.store == store
      ensures State() == System(engine.active, {}, store.rows)
    {
      this.engine := engine;
      this.store := store;
      dirty := {};
    }

    /** A store error is reported but does not roll the engine back, and it does not mark the key dirty. */
    method Observe(d: Detection, at: Time, up: bool) returns (r: Outcome)
      modifies this, engine, store
      ensures State() == Step(engine.cfg, old(State()), Op.Observe(d, at, up))
      ensures r == if !Accepted(engine.cfg, d) then DetectionRefused
                   else if Material(engine.cfg, old(engine.active), d) && !up then StoreError else Done
    {
      var res := engine.Observe(d, at);
      if res.Refused? {
        return DetectionRefused;
      }
      if res.material {
        var recs := engine.RecordsForKeys([res.key]);
        var ok := store.Upsert(recs, up);
        return if ok then Done else StoreError;
      }
      dirty := dirty + {res.key};
      r := Done;
    }

    /** Drains the dirty set and writes one batch; without any record to write the store is not called. */
    method Flush(up: bool) returns (r: Outcome)
      modifies this, store
      ensures (exists order :: Possible(old(State()), Op.Flush(order, up)) &&
                State() == Step(engine.cfg, old(State()), Op.Flush(order, up)) &&
                (r == StoreError <==> !up && RecordsFor(engine.cfg, engine.active, order) != []))
      ensures r in {Done, StoreError}
    {
      var keys := DirtyKeys();
      assert Possible(State(), Op.Flush(keys, up));
      dirty := {};
      var recs := engine.RecordsForKeys(keys);
      if |recs| == 0 {
        return Done;
      }
      var ok := store.Upsert(recs, up);
      r := if ok then Done else StoreError;
    }

    method DirtyKeys() returns (keys: seq<Key>)
      ensures Enumerates(keys, dirty)
    {
      keys := [];
      var todo := dirty;
      while todo != {}
        invariant todo <= dirty
        invariant Enumerates(keys, dirty - todo)
        decreases todo
      {
        var k :| k in todo;
        EnumeratesAppend(keys, dirty - todo, k);
        assert dirty - (todo - {k}) == dirty - todo + {k};
        keys, todo := keys + [k], todo - {k};
      }
      assert dirty - todo == dirty;
    }

    /** Clears one source's idle instances and marks exactly those resolved as of the cutoff. */
    method Prune(source: string, cutoff: Time, up: bool) returns (n: nat, r: Outcome)
      modifies this, engine, store
      ensures State() == Step(engine.cfg, old(State()), Op.Prune(source, cutoff, up))
      ensures n == |Idle(old(engine.active), source, cutoff)|
      ensures r == if n > 0 && !up then StoreError else Done
    {
      var keys := engine.PruneKeysForSource(source, cutoff);
      n := |keys|;
      r := ResolveKeys(keys, cutoff, up);
    }

    /** Clears every instance of a recovered subject and marks exactly those resolved. */
    method ResolveSubject(subject: SubjectRef, at: Time, up: bool) returns (n: nat, r: Outcome)
      modifies this, engine, store
      ensures State() == Step(engine.cfg, old(State()), Op.Resolve(subject, at, up))
      ensures n == |AboutSubject(old(engine.active), subject)|
      ensures r == if n > 0 && !up then StoreError else Done
    {
      var keys := engine.ClearSubject(subject);
      n := |keys|;
      r := ResolveKeys(keys, at, up);
    }

    method ResolveKeys(keys: seq<Key>, at: Time, up: bool) returns (r: Outcome)
      modifies this, store
      ensures dirty == old(dirty) - Elems(keys)
      ensures store.rows == if up then MarkAll(old(store.rows), Ids(Elems(keys)), at) else old(store.rows)
      ensures r == if |keys| > 0 && !up then StoreError else Done
    {
      if |keys| == 0 {
        assert Ids(Elems(keys)) == {};
        assert MarkAll(store.rows, {}, at) == store.rows;
        return Done;
      }
      var ids: seq<string> := [];
      for i := 0 to |keys|
        invariant |ids| == i && forall j :: 0 <= j < i ==> ids[j] == IdOf(keys[j])
      {
        ids := ids + [IdOf(keys[i])];
      }
      IdsOfKeys(keys, ids);
      for i := 0 to |keys|
        invariant dirty == old(dirty) - Elems(keys[..i]) && store.rows == old(store.rows)
      {
        assert keys[..i + 1] == keys[..i] + [keys[i]];
        ElemsAppend(keys[..i], keys[i]);
        dirty := dirty - {keys[i]};
      }
      assert keys[..|keys|] == keys;
      var ok := store.MarkResolved(ids, at, up);
      r := if ok then Done else StoreError;
    }

    /** Seeds the engine from the store's open rows; a store error leaves the engine unchanged. */
    method Load(up: bool) returns (n: nat, r: Outcome)
      modifies engine
      ensures r == if up then Done else StoreError
      ensures !up ==> n == 0 && engine.active == old(engine.active)
      ensures up ==> exists recs :: LoadedFrom(store.rows, recs) && n == KnownCount(engine.cfg, recs) &&
                                    engine.active == Restored(engine.cfg, old(engine.active), recs)
    {
      var res := store.LoadActive(up);
      if res.LoadFailed? {
        return 0, StoreError;
      }
      n := engine.Restore(res.records);
      r := Done;
    }
  }

  lemma IdsOfKeys(keys: seq<Key>, ids: seq<string>)
    requires |ids| == |keys| && forall j :: 0 <= j < |ids| ==> ids[j] == IdOf(keys[j])
    ensures Elems(ids) == Ids(Elems(keys))
  {
    forall id | id in Ids(Elems(keys)) ensures id in ids {
      var k :| k in Elems(keys) && IdOf(k) == id;
      var j :| 0 <= j < |keys| && keys[j] == k;
      assert ids[j] == id;
    }
    forall id | id in ids ensures id in Ids(Elems(keys)) {
      var j :| 0 <= j < |ids| && ids[j] == id;
      assert keys[j] in Elems(keys);
    }
  }
}
