/** Agreement of the engine with the SQL repository over every run, restarts and failed store calls included. */
module AnomalySqlAgreement {
  import opened AnomalyModel
  import opened AnomalyEngine
  import opened AnomalyStore
  import opened AnomalyCoordinator
  import opened AnomalyAgreement
  import opened AnomalySql

  /** A row written for an instance: every column an update writes is that of its projection. */
  predicate Written(cfg: Config, t: Tracked, rec: Record) {
    rec == KeepFixed(Columns(RecordFor(cfg, t)), rec)
  }

  /** A clean key: its row was written for its instance, or the instance is this very row reloaded and not observed
      since. */
  predicate SqlSettled(cfg: Config, s: System, k: Key) {
    k in s.active && IsOpen(s.rows, k) &&
    var rec := SlotOf(s.rows, k).row.rec;
    Written(cfg, s.active[k], rec) || s.active[k] == Reload(rec)
  }

  /** Agreement at one key: live exactly when its row is open, settled unless dirty. */
  ghost predicate SqlKeyAgrees(cfg: Config, s: System, k: Key) {
    && (Encodable(k) ==> (k in s.active <==> IsOpen(s.rows, k)))
    && (k in s.active && k !in s.dirty ==> SqlSettled(cfg, s, k))
  }

  ghost predicate SqlAgreeExcept(cfg: Config, s: System, lost: set<Key>) {
    && Named(cfg, s.rows) && LiveOk(cfg, s.active) && s.dirty <= s.active.Keys
    && forall k :: k !in lost ==> SqlKeyAgrees(cfg, s, k)
  }

  // ----- How the repository's rows change, key by key -----

  /** What the slot of a key holds after its instance was written. */
  predicate HoldsWritten(cfg: Config, t: Tracked, slot: Slot) {
    slot.Holds? && slot.row.resolution == Open && Written(cfg, t, slot.row.rec)
  }

  lemma SqlPutAt(cfg: Config, rows: Rows, t: Tracked, l: Key)
    requires GoodConfig(cfg) && t.det.defKey in cfg.catalog && Encodable(KeyOf(t.det)) && Encodable(l)
    ensures var slot := SlotOf(SqlPut(rows, RecordFor(cfg, t)), l);
            if l == KeyOf(t.det) then HoldsWritten(cfg, t, slot) else slot == SlotOf(rows, l)
  {
    RecordForKey(cfg, t);
    if IdOf(KeyOf(t.det)) == IdOf(l) {
      IdInjective(KeyOf(t.det), l);
    }
  }

  lemma SqlPutNamed(cfg: Config, rows: Rows, t: Tracked)
    requires GoodConfig(cfg) && Named(cfg, rows)
    requires t.det.defKey in cfg.catalog && Encodable(KeyOf(t.det))
    ensures Named(cfg, SqlPut(rows, RecordFor(cfg, t)))
  {
    RecordForKey(cfg, t);
    var r := RecordFor(cfg, t);
    if r.id in rows {
      assert RowNamed(cfg, r.id, rows[r.id]);
    }
    assert RowNamed(cfg, r.id, SqlPut(rows, r)[r.id]);
  }

  lemma SqlPutAllAppend(rows: Rows, recs: seq<Record>, r: Record)
    ensures SqlPutAll(rows, recs + [r]) == SqlPut(SqlPutAll(rows, recs), r)
  {
    assert (recs + [r])[..|recs|] == recs;
  }

  lemma {:induction false} SqlBatchAt(cfg: Config, rows: Rows, active: Active, order: seq<Key>, l: Key)
    requires GoodConfig(cfg) && LiveOk(cfg, active) && Encodable(l)
    ensures var slot := SlotOf(SqlPutAll(rows, RecordsFor(cfg, active, order)), l);
            if l in order && l in active then HoldsWritten(cfg, active[l], slot) else slot == SlotOf(rows, l)
  {
    if order != [] {
      var init, k := order[..|order| - 1], order[|order| - 1];
      assert order == init + [k];
      SqlBatchAt(cfg, rows, active, init, l);
      if k in active {
        var recs := RecordsFor(cfg, active, init);
        SqlPutAllAppend(rows, recs, RecordFor(cfg, active[k]));
        SqlPutAt(cfg, SqlPutAll(rows, recs), active[k], l);
      }
    }
  }

  lemma {:induction false} SqlBatchNamed(cfg: Config, rows: Rows, active: Active, order: seq<Key>)
    requires GoodConfig(cfg) && LiveOk(cfg, active) && Named(cfg, rows)
    ensures Named(cfg, SqlPutAll(rows, RecordsFor(cfg, active, order)))
  {
    if order != [] {
      var init, k := order[..|order| - 1], order[|order| - 1];
      SqlBatchNamed(cfg, rows, active, init);
      if k in active {
        var recs := RecordsFor(cfg, active, init);
        SqlPutAllAppend(rows, recs, RecordFor(cfg, active[k]));
        SqlPutNamed(cfg, SqlPutAll(rows, recs), active[k]);
      }
    }
  }

  // ----- Every call keeps the agreement -----

  /** A batch of live keys was written: those keys are settled, every other key stands as before. */
  lemma SqlBatchKeepsKey(cfg: Config, s: System, active: Active, dirty: set<Key>, order: seq<Key>, l: Key)
    requires GoodConfig(cfg) && LiveOk(cfg, active)
    requires l !in order ==> SqlKeyAgrees(cfg, s, l) && (l in active <==> l in s.active) && (l in dirty <==> l in s.dirty) &&
                             (l in active ==> active[l] == s.active[l])
    requires l in order ==> l in active
    ensures SqlKeyAgrees(cfg, System(active, dirty, SqlPutAll(s.rows, RecordsFor(cfg, active, order))), l)
  {
    if Encodable(l) {
      SqlBatchAt(cfg, s.rows, active, order, l);
    }
  }

  lemma SqlMaterialKeeps(cfg: Config, s: System, lost: set<Key>, d: Detection, at: Time, up: bool)
    requires GoodConfig(cfg) && SqlAgreeExcept(cfg, s, lost) && PipeFree(d.subject.kind)
    requires Accepted(cfg, d) && Material(cfg, s.active, d)
    ensures SqlAgreeExcept(cfg, SqlStep(cfg, s, Observe(d, at, up)), Noted(lost, {KeyOf(d)}, up))
  {
    var active := Fold(cfg, s.active, d, at);
    FoldLiveOk(cfg, s.active, d, at);
    SqlBatchNamed(cfg, s.rows, active, [KeyOf(d)]);
    var after := SqlStep(cfg, s, Observe(d, at, up));
    forall l | l !in Noted(lost, {KeyOf(d)}, up) ensures SqlKeyAgrees(cfg, after, l) {
      assert l != KeyOf(d) ==> SqlKeyAgrees(cfg, s, l);
      if up {
        SqlBatchKeepsKey(cfg, s, active, s.dirty, [KeyOf(d)], l);
      }
    }
  }

  lemma SqlRecurrenceKeeps(cfg: Config, s: System, lost: set<Key>, d: Detection, at: Time, up: bool)
    requires GoodConfig(cfg) && SqlAgreeExcept(cfg, s, lost) && PipeFree(d.subject.kind)
    requires !Accepted(cfg, d) || !Material(cfg, s.active, d)
    ensures SqlAgreeExcept(cfg, SqlStep(cfg, s, Observe(d, at, up)), lost)
  {
    FoldLiveOk(cfg, s.active, d, at);
    var after := SqlStep(cfg, s, Observe(d, at, up));
    forall l | l !in lost ensures SqlKeyAgrees(cfg, after, l) {
      assert SqlKeyAgrees(cfg, s, l);
    }
  }

  lemma SqlFlushKeeps(cfg: Config, s: System, lost: set<Key>, order: seq<Key>, up: bool)
    requires GoodConfig(cfg) && SqlAgreeExcept(cfg, s, lost) && Enumerates(order, s.dirty)
    ensures SqlAgreeExcept(cfg, SqlStep(cfg, s, Flush(order, up)), Noted(lost, s.dirty, up))
  {
    SqlBatchNamed(cfg, s.rows, s.active, order);
    var after := SqlStep(cfg, s, Flush(order, up));
    forall l | l !in Noted(lost, s.dirty, up) ensures SqlKeyAgrees(cfg, after, l) {
      assert l in order <==> l in Elems(order);
      assert l !in s.dirty ==> SqlKeyAgrees(cfg, s, l);
      if up {
        SqlBatchKeepsKey(cfg, s, s.active, {}, order, l);
      }
    }
  }

  lemma SqlMarkNamed(cfg: Config, rows: Rows, ids: set<string>, at: Time)
    requires Named(cfg, rows)
    ensures Named(cfg, SqlMarkAll(rows, ids, at))
  {
    forall id | id in SqlMarkAll(rows, ids, at) ensures RowNamed(cfg, id, SqlMarkAll(rows, ids, at)[id]) {
      assert RowNamed(cfg, id, rows[id]);
    }
  }

  lemma SqlClearKeeps(cfg: Config, s: System, lost: set<Key>, keys: set<Key>, at: Time, up: bool)
    requires GoodConfig(cfg) && SqlAgreeExcept(cfg, s, lost) && keys <= s.active.Keys
    ensures SqlAgreeExcept(cfg, SqlClear(s, keys, at, up), Noted(lost, keys, up))
  {
    SqlMarkNamed(cfg, s.rows, Ids(keys), at);
    var after := SqlClear(s, keys, at, up);
    forall l | l !in Noted(lost, keys, up) ensures SqlKeyAgrees(cfg, after, l) {
      assert l !in keys ==> SqlKeyAgrees(cfg, s, l);
      if Encodable(l) {
        MarkAt(s.rows, keys, Floor(at), l);
      }
    }
  }

  lemma SqlRestartKeeps(cfg: Config, s: System, loaded: seq<string>)
    requires GoodConfig(cfg) && Named(cfg, s.rows) && Enumerates(loaded, OpenIds(s.rows))
    ensures SqlAgreeExcept(cfg, RestartStep(cfg, s, loaded, true), {})
  {
    RestoredLiveOk(cfg, s.rows, loaded);
    forall l ensures SqlKeyAgrees(cfg, RestartStep(cfg, s, loaded, true), l) {
      if Encodable(l) {
        RestartRevives(cfg, s, loaded, l);
      }
    }
  }

  lemma SqlFailedRestartKeeps(cfg: Config, s: System, lost: set<Key>, loaded: seq<string>)
    requires Named(cfg, s.rows) && Enumerates(loaded, OpenIds(s.rows))
    ensures SqlAgreeExcept(cfg, RestartStep(cfg, s, loaded, false), lost + OpenKeys(s.rows))
  {
    FailedRestartKeeps(cfg, s, lost, loaded);
    forall l | l !in lost + OpenKeys(s.rows) ensures SqlKeyAgrees(cfg, RestartStep(cfg, s, loaded, false), l) {
      assert KeyAgrees(cfg, RestartStep(cfg, s, loaded, false), l);
    }
  }

  lemma SqlStepKeeps(cfg: Config, s: System, lost: set<Key>, op: Op)
    requires GoodConfig(cfg) && SqlAgreeExcept(cfg, s, lost) && Possible(s, op) && KindFree(op)
    ensures SqlAgreeExcept(cfg, SqlStep(cfg, s, op), Lost(cfg, s, lost, op))
  {
    match op
    case Observe(d, at, up) =>
      if Accepted(cfg, d) && Material(cfg, s.active, d) {
        SqlMaterialKeeps(cfg, s, lost, d, at, up);
      } else {
        SqlRecurrenceKeeps(cfg, s, lost, d, at, up);
      }
    case Flush(order, up) => SqlFlushKeeps(cfg, s, lost, order, up);
    case Prune(source, cutoff, up) => SqlClearKeeps(cfg, s, lost, Idle(s.active, source, cutoff), cutoff, up);
    case Resolve(subject, at, up) => SqlClearKeeps(cfg, s, lost, AboutSubject(s.active, subject), at, up);
    case Restart(loaded, up) =>
      if up {
        SqlRestartKeeps(cfg, s, loaded);
      } else {
        SqlFailedRestartKeeps(cfg, s, lost, loaded);
      }
  }

  function SqlLostAfter(cfg: Config, s: System, lost: set<Key>, ops: seq<Op>): set<Key>
    decreases |ops|
  {
    if ops == [] || !Possible(s, ops[0]) then lost
    else SqlLostAfter(cfg, SqlStep(cfg, s, ops[0]), Lost(cfg, s, lost, ops[0]), ops[1..])
  }

  /** Over every run on the repository, whichever store calls fail and however often the process restarts: at every key
      whose latest store call succeeded, live means open, and a clean key's row was written for its instance or is the
      one it was reloaded from. */
  lemma {:induction false} SqlRunsKeep(cfg: Config, s: System, lost: set<Key>, ops: seq<Op>, r: System)
    requires GoodConfig(cfg) && SqlAgreeExcept(cfg, s, lost) && SqlRuns(cfg, s, ops, r)
    requires forall i :: 0 <= i < |ops| ==> KindFree(ops[i])
    ensures SqlAgreeExcept(cfg, r, SqlLostAfter(cfg, s, lost, ops))
    decreases |ops|
  {
    if ops != [] {
      SqlStepKeeps(cfg, s, lost, ops[0]);
      SqlRunsKeep(cfg, SqlStep(cfg, s, ops[0]), Lost(cfg, s, lost, ops[0]), ops[1..], r);
    }
  }

  lemma {:induction false} SqlNothingLost(cfg: Config, s: System, ops: seq<Op>, r: System)
    requires SqlRuns(cfg, s, ops, r) && forall i :: 0 <= i < |ops| ==> ops[i].up
    ensures SqlLostAfter(cfg, s, {}, ops) == {}
    decreases |ops|
  {
    if ops != [] {
      SqlNothingLost(cfg, SqlStep(cfg, s, ops[0]), ops[1..], r);
      assert Lost(cfg, s, {}, ops[0]) == {};
    }
  }

  /** In agreement the open ids are the record ids of the live keys, one per instance. */
  lemma SqlOpenIdsAreLiveIds(cfg: Config, s: System)
    requires SqlAgreeExcept(cfg, s, {})
    ensures OpenIds(s.rows) == Ids(s.active.Keys) && |OpenIds(s.rows)| == |s.active|
  {
    forall id | id in OpenIds(s.rows) ensures id in Ids(s.active.Keys) {
      assert RowNamed(cfg, id, s.rows[id]);
      assert SqlKeyAgrees(cfg, s, RecordKey(s.rows[id].rec));
    }
    forall id | id in Ids(s.active.Keys) ensures id in OpenIds(s.rows) {
      var k :| k in s.active.Keys && IdOf(k) == id;
      assert SqlKeyAgrees(cfg, s, k);
    }
    IdsCount(s.active.Keys);
  }

  /** Without a store error, after every run from the empty repository with any number of restarts, the open ids are
      exactly the record ids of the live keys, one per instance, the dirty keys are live, and every clean key is
      settled. */
  lemma SqlSmoothRunsAgree(cfg: Config, ops: seq<Op>, r: System)
    requires GoodConfig(cfg) && SqlRuns(cfg, EMPTY, ops, r)
    requires forall i :: 0 <= i < |ops| ==> ops[i].up && KindFree(ops[i])
    ensures OpenIds(r.rows) == Ids(r.active.Keys) && |OpenIds(r.rows)| == |r.active|
    ensures r.dirty <= r.active.Keys
    ensures forall k :: k in r.active && k !in r.dirty ==> SqlSettled(cfg, r, k)
  {
    SqlRunsKeep(cfg, EMPTY, {}, ops, r);
    SqlNothingLost(cfg, EMPTY, ops, r);
    SqlOpenIdsAreLiveIds(cfg, r);
    forall k | k in r.active && k !in r.dirty ensures SqlSettled(cfg, r, k) {
      assert SqlKeyAgrees(cfg, r, k);
    }
  }

  /** What settled means there: the open row of every clean live key holds its evidence and count, its latest time to
      the second, and as severity the projected one or, since a restart, the base. */
  lemma SqlCleanRowsAreCurrent(cfg: Config, ops: seq<Op>, r: System, k: Key)
    requires GoodConfig(cfg) && SqlRuns(cfg, EMPTY, ops, r) && k in r.active && k !in r.dirty
    requires forall i :: 0 <= i < |ops| ==> ops[i].up && KindFree(ops[i])
    ensures IsOpen(r.rows, k)
    ensures var rec, t := SlotOf(r.rows, k).row.rec, r.active[k];
            && rec.anomaly.evidence == t.det.evidence && rec.anomaly.count == t.count
            && 0 <= t.lastSeen - rec.anomaly.lastSeen < 1_000_000_000
            && (rec.anomaly.severity == Project(cfg, t).severity || rec.anomaly.severity == t.base)
  {
    SqlSmoothRunsAgree(cfg, ops, r);
    assert SqlSettled(cfg, r, k);
  }
}
