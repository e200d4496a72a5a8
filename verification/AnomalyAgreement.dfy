/** Agreement of engine and store over every run: the open rows are exactly the rows of the live instances, and a
    row lags its instance only while the key is dirty. A failed store call suspends this for the keys it was about,
    until a later store call about them succeeds. */
module AnomalyAgreement {
  import opened AnomalyModel
  import opened AnomalyEngine
  import opened AnomalyStore
  import opened AnomalyCoordinator

  /** A constructed catalog whose ids do not contain the separator of record ids. */
  ghost predicate GoodConfig(cfg: Config) {
    WellFormed(cfg.catalog) && forall id :: id in cfg.catalog ==> PipeFree(id)
  }

  /** A call that does not observe a subject kind containing the separator. */
  predicate KindFree(op: Op) {
    op.Observe? ==> PipeFree(op.d.subject.kind)
  }

  datatype Slot = Vacant | Holds(row: Row)

  /** The row stored for a key, if any. */
  function SlotOf(rows: Rows, k: Key): Slot {
    if IdOf(k) in rows then Holds(rows[IdOf(k)]) else Vacant
  }

  predicate IsOpen(rows: Rows, k: Key) {
    var slot := SlotOf(rows, k);
    slot.Holds? && slot.row.resolution == Open
  }

  predicate RowNamed(cfg: Config, id: string, row: Row) {
    var k := RecordKey(row.rec);
    IdOf(k) == id && Encodable(k) && k.def in cfg.catalog
  }

  /** Every row is stored under the id of the key it reloads into. */
  ghost predicate Named(cfg: Config, rows: Rows) {
    forall id :: id in rows ==> RowNamed(cfg, id, rows[id])
  }

  /** A clean key: its row is its instance's projection, or the instance is this very row reloaded and not
      observed since. */
  predicate Settled(cfg: Config, s: System, k: Key) {
    k in s.active && IsOpen(s.rows, k) &&
    var rec := SlotOf(s.rows, k).row.rec;
    rec == RecordFor(cfg, s.active[k]) || s.active[k] == Reload(rec)
  }

  /** Agreement at one key: live exactly when its row is open, settled unless dirty. */
  ghost predicate KeyAgrees(cfg: Config, s: System, k: Key) {
    && (k in s.active ==> KeyOf(s.active[k].det) == k && k.def in cfg.catalog && Encodable(k))
    && (Encodable(k) ==> (k in s.active <==> IsOpen(s.rows, k)))
    && (k in s.active && k !in s.dirty ==> Settled(cfg, s, k))
  }

  ghost predicate LiveOk(cfg: Config, active: Active) {
    Coherent(cfg, active) && forall k :: k in active ==> Encodable(k)
  }

  /** Agreement at every key but the lost ones. */
  ghost predicate AgreeExcept(cfg: Config, s: System, lost: set<Key>) {
    && Named(cfg, s.rows)
    && LiveOk(cfg, s.active)
    && s.dirty <= s.active.Keys
    && forall k :: k !in lost ==> KeyAgrees(cfg, s, k)
  }

  ghost predicate Agree(cfg: Config, s: System) {
    AgreeExcept(cfg, s, {})
  }

  /** The keys whose latest store call failed, after one more call. A successful load starts afresh; a failed one
      leaves every open row without its instance. */
  function Lost(cfg: Config, s: System, lost: set<Key>, op: Op): set<Key> {
    match op
    case Observe(d, _, up) =>
      if !Accepted(cfg, d) || !Material(cfg, s.active, d) then lost else Noted(lost, {KeyOf(d)}, up)
    case Flush(_, up) => Noted(lost, s.dirty, up)
    case Prune(source, cutoff, up) => Noted(lost, Idle(s.active, source, cutoff), up)
    case Resolve(subject, _, up) => Noted(lost, AboutSubject(s.active, subject), up)
    case Restart(_, up) => if up then {} else lost + OpenKeys(s.rows)
  }

  function Noted(lost: set<Key>, keys: set<Key>, up: bool): set<Key> {
    if up then lost - keys else lost + keys
  }

  function OpenKeys(rows: Rows): set<Key> {
    set id | id in OpenIds(rows) :: RecordKey(rows[id].rec)
  }

  // ----- How rows change, key by key -----

  lemma PutAt(rows: Rows, r: Record, k: Key, l: Key)
    requires Encodable(k) && Encodable(l) && r.id == IdOf(k)
    ensures SlotOf(Put(rows, r), l) == if k == l then Holds(Row(r, Open)) else SlotOf(rows, l)
  {
    if IdOf(k) == IdOf(l) {
      IdInjective(k, l);
    }
  }

  lemma PutNamed(cfg: Config, rows: Rows, t: Tracked)
    requires GoodConfig(cfg) && Named(cfg, rows)
    requires t.det.defKey in cfg.catalog && Encodable(KeyOf(t.det))
    ensures Named(cfg, Put(rows, RecordFor(cfg, t)))
  {
    RecordForKey(cfg, t);
  }

  /** A batch written from the live set: the rows of its live keys become their projections, other rows stay. */
  lemma {:induction false} BatchAt(cfg: Config, rows: Rows, active: Active, order: seq<Key>, l: Key)
    requires GoodConfig(cfg) && LiveOk(cfg, active) && Encodable(l)
    ensures SlotOf(PutAll(rows, RecordsFor(cfg, active, order)), l) ==
            if l in order && l in active then Holds(Row(RecordFor(cfg, active[l]), Open)) else SlotOf(rows, l)
  {
    if order != [] {
      var init, k := order[..|order| - 1], order[|order| - 1];
      assert order == init + [k];
      BatchAt(cfg, rows, active, init, l);
      if k in active {
        var recs, r := RecordsFor(cfg, active, init), RecordFor(cfg, active[k]);
        assert (recs + [r])[..|recs|] == recs;
        RecordForKey(cfg, active[k]);
        PutAt(PutAll(rows, recs), r, k, l);
      }
    }
  }

  lemma {:induction false} BatchNamed(cfg: Config, rows: Rows, active: Active, order: seq<Key>)
    requires GoodConfig(cfg) && LiveOk(cfg, active) && Named(cfg, rows)
    ensures Named(cfg, PutAll(rows, RecordsFor(cfg, active, order)))
  {
    if order != [] {
      var init, k := order[..|order| - 1], order[|order| - 1];
      BatchNamed(cfg, rows, active, init);
      if k in active {
        var recs := RecordsFor(cfg, active, init);
        assert (recs + [RecordFor(cfg, active[k])])[..|recs|] == recs;
        PutNamed(cfg, PutAll(rows, recs), active[k]);
      }
    }
  }

  lemma MarkAt(rows: Rows, keys: set<Key>, at: Time, l: Key)
    requires Encodable(l) && forall k :: k in keys ==> Encodable(k)
    ensures SlotOf(MarkAll(rows, Ids(keys), at), l) ==
            if l in keys && IdOf(l) in rows then Holds(MarkRow(rows[IdOf(l)], at)) else SlotOf(rows, l)
  {
    if IdOf(l) in Ids(keys) {
      var k :| k in keys && IdOf(k) == IdOf(l);
      IdInjective(k, l);
    }
  }

  /** Loading rows, in whatever order they come, revives exactly the keys they are named after. */
  lemma {:induction false} RestoredAt(cfg: Config, rows: Rows, order: seq<string>, l: Key)
    requires Named(cfg, rows) && Elems(order) <= rows.Keys && Encodable(l)
    ensures var active := Restored(cfg, map[], RecordsAt(rows, order));
            && (l in active <==> IdOf(l) in order)
            && (l in active ==> IdOf(l) in rows && active[l] == Reload(rows[IdOf(l)].rec))
  {
    var recs := RecordsAt(rows, order);
    if order == [] {
      assert recs == [];
    } else {
      var init, id := order[..|order| - 1], order[|order| - 1];
      assert order == init + [id];
      ElemsAppend(init, id);
      assert recs[..|recs| - 1] == RecordsAt(rows, init);
      RestoredAt(cfg, rows, init, l);
      assert RowNamed(cfg, id, rows[id]);
      if id == IdOf(l) {
        IdInjective(RecordKey(rows[id].rec), l);
      }
    }
  }

  lemma {:induction false} RestoredKeys(cfg: Config, recs: seq<Record>)
    requires forall i :: 0 <= i < |recs| ==> Encodable(RecordKey(recs[i]))
    ensures LiveOk(cfg, Restored(cfg, map[], recs))
  {
    if recs != [] {
      RestoredKeys(cfg, recs[..|recs| - 1]);
    }
  }

  lemma RestoredLiveOk(cfg: Config, rows: Rows, order: seq<string>)
    requires Named(cfg, rows) && Elems(order) <= rows.Keys
    ensures LiveOk(cfg, Restored(cfg, map[], RecordsAt(rows, order)))
  {
    var recs := RecordsAt(rows, order);
    forall i | 0 <= i < |recs| ensures Encodable(RecordKey(recs[i])) {
      assert order[i] in Elems(order);
      assert RowNamed(cfg, order[i], rows[order[i]]);
    }
    RestoredKeys(cfg, recs);
  }

  // ----- Every call keeps the agreement -----

  lemma FoldLiveOk(cfg: Config, active: Active, d: Detection, at: Time)
    requires GoodConfig(cfg) && LiveOk(cfg, active) && PipeFree(d.subject.kind)
    ensures LiveOk(cfg, Fold(cfg, active, d, at))
  {
    FoldCoherent(cfg, active, d, at);
  }

  lemma MaterialKeepsKey(cfg: Config, s: System, lost: set<Key>, d: Detection, at: Time, up: bool, l: Key)
    requires GoodConfig(cfg) && AgreeExcept(cfg, s, lost) && PipeFree(d.subject.kind)
    requires Accepted(cfg, d) && Material(cfg, s.active, d)
    requires l !in Noted(lost, {KeyOf(d)}, up)
    ensures KeyAgrees(cfg, ObserveStep(cfg, s, d, at, up), l)
  {
    var active := Fold(cfg, s.active, d, at);
    FoldLiveOk(cfg, s.active, d, at);
    assert l != KeyOf(d) ==> KeyAgrees(cfg, s, l);
    if Encodable(l) && up {
      BatchAt(cfg, s.rows, active, [KeyOf(d)], l);
    }
  }

  lemma RecurrenceKeepsKey(cfg: Config, s: System, d: Detection, at: Time, up: bool, l: Key)
    requires KeyAgrees(cfg, s, l) && Accepted(cfg, d) && !Material(cfg, s.active, d)
    ensures KeyAgrees(cfg, ObserveStep(cfg, s, d, at, up), l)
  {
  }

  lemma ObserveKeeps(cfg: Config, s: System, lost: set<Key>, d: Detection, at: Time, up: bool)
    requires GoodConfig(cfg) && AgreeExcept(cfg, s, lost) && PipeFree(d.subject.kind) && Accepted(cfg, d)
    ensures AgreeExcept(cfg, ObserveStep(cfg, s, d, at, up), Lost(cfg, s, lost, Observe(d, at, up)))
  {
    FoldLiveOk(cfg, s.active, d, at);
    if Material(cfg, s.active, d) {
      BatchNamed(cfg, s.rows, Fold(cfg, s.active, d, at), [KeyOf(d)]);
      forall l | l !in Noted(lost, {KeyOf(d)}, up) {
        MaterialKeepsKey(cfg, s, lost, d, at, up, l);
      }
    } else {
      forall l | l !in lost ensures KeyAgrees(cfg, ObserveStep(cfg, s, d, at, up), l) {
        assert KeyAgrees(cfg, s, l);
        RecurrenceKeepsKey(cfg, s, d, at, up, l);
      }
    }
  }

  /** A flush that succeeds makes the row of every dirty key current, whatever had failed before. */
  lemma FlushWrites(cfg: Config, s: System, order: seq<Key>, l: Key)
    requires GoodConfig(cfg) && LiveOk(cfg, s.active) && Enumerates(order, s.dirty) && Encodable(l)
    ensures SlotOf(FlushStep(cfg, s, order, true).rows, l) ==
            if l in s.dirty && l in s.active then Holds(Row(RecordFor(cfg, s.active[l]), Open)) else SlotOf(s.rows, l)
  {
    assert l in s.dirty <==> l in Elems(order);
    BatchAt(cfg, s.rows, s.active, order, l);
  }

  lemma FlushKeepsKey(cfg: Config, s: System, lost: set<Key>, order: seq<Key>, up: bool, l: Key)
    requires GoodConfig(cfg) && AgreeExcept(cfg, s, lost) && Enumerates(order, s.dirty)
    requires l !in Noted(lost, s.dirty, up)
    ensures KeyAgrees(cfg, FlushStep(cfg, s, order, up), l)
  {
    assert l !in s.dirty ==> KeyAgrees(cfg, s, l);
    if Encodable(l) {
      FlushWrites(cfg, s, order, l);
    }
  }

  lemma FlushKeeps(cfg: Config, s: System, lost: set<Key>, order: seq<Key>, up: bool)
    requires GoodConfig(cfg) && AgreeExcept(cfg, s, lost) && Enumerates(order, s.dirty)
    ensures AgreeExcept(cfg, FlushStep(cfg, s, order, up), Noted(lost, s.dirty, up))
  {
    BatchNamed(cfg, s.rows, s.active, order);
    forall l | l !in Noted(lost, s.dirty, up) {
      FlushKeepsKey(cfg, s, lost, order, up, l);
    }
  }

  lemma ClearKeepsKey(cfg: Config, s: System, lost: set<Key>, keys: set<Key>, at: Time, up: bool, l: Key)
    requires GoodConfig(cfg) && AgreeExcept(cfg, s, lost) && keys <= s.active.Keys
    requires l !in Noted(lost, keys, up)
    ensures KeyAgrees(cfg, ClearStep(s, keys, at, up), l)
  {
    assert l !in keys ==> KeyAgrees(cfg, s, l);
    if Encodable(l) {
      MarkAt(s.rows, keys, at, l);
    }
  }

  /** A prune or a recovery resolves exactly the rows of the instances it clears, as of the given time and with what
      they last held, and leaves every other row as it is. */
  lemma ClearResolvesExactly(cfg: Config, s: System, lost: set<Key>, keys: set<Key>, at: Time, l: Key)
    requires AgreeExcept(cfg, s, lost) && keys <= s.active.Keys && Encodable(l) && l !in lost
    ensures var after := SlotOf(ClearStep(s, keys, at, true).rows, l);
            if l in keys
            then SlotOf(s.rows, l).Holds? && after == Holds(Row(SlotOf(s.rows, l).row.rec, ResolvedAt(at)))
            else after == SlotOf(s.rows, l)
  {
    assert KeyAgrees(cfg, s, l);
    MarkAt(s.rows, keys, at, l);
  }

  lemma ClearKeeps(cfg: Config, s: System, lost: set<Key>, keys: set<Key>, at: Time, up: bool)
    requires GoodConfig(cfg) && AgreeExcept(cfg, s, lost) && keys <= s.active.Keys
    ensures AgreeExcept(cfg, ClearStep(s, keys, at, up), Noted(lost, keys, up))
  {
    forall l | l !in Noted(lost, keys, up) {
      ClearKeepsKey(cfg, s, lost, keys, at, up, l);
    }
  }

  /** A restart revives each open row's key as that row reloaded, and nothing else. */
  lemma RestartRevives(cfg: Config, s: System, loaded: seq<string>, l: Key)
    requires Named(cfg, s.rows) && Enumerates(loaded, OpenIds(s.rows)) && Encodable(l)
    ensures var r := RestartStep(cfg, s, loaded, true);
            && (l in r.active <==> IsOpen(s.rows, l))
            && (l in r.active ==> r.active[l] == Reload(SlotOf(s.rows, l).row.rec))
  {
    RestoredAt(cfg, s.rows, loaded, l);
    assert IdOf(l) in loaded <==> IdOf(l) in Elems(loaded);
  }

  lemma RestartKeeps(cfg: Config, s: System, loaded: seq<string>)
    requires GoodConfig(cfg) && Named(cfg, s.rows) && Enumerates(loaded, OpenIds(s.rows))
    ensures Agree(cfg, RestartStep(cfg, s, loaded, true))
  {
    RestoredLiveOk(cfg, s.rows, loaded);
    forall l ensures KeyAgrees(cfg, RestartStep(cfg, s, loaded, true), l) {
      if Encodable(l) {
        RestartRevives(cfg, s, loaded, l);
      }
    }
  }

  lemma FailedRestartKeeps(cfg: Config, s: System, lost: set<Key>, loaded: seq<string>)
    requires Named(cfg, s.rows) && Enumerates(loaded, OpenIds(s.rows))
    ensures AgreeExcept(cfg, RestartStep(cfg, s, loaded, false), lost + OpenKeys(s.rows))
  {
    forall l | l !in OpenKeys(s.rows) ensures KeyAgrees(cfg, RestartStep(cfg, s, loaded, false), l) {
      if Encodable(l) && IsOpen(s.rows, l) {
        assert RowNamed(cfg, IdOf(l), s.rows[IdOf(l)]);
        IdInjective(l, RecordKey(s.rows[IdOf(l)].rec));
        assert IdOf(l) in OpenIds(s.rows);
      }
    }
  }

  lemma StepKeeps(cfg: Config, s: System, lost: set<Key>, op: Op)
    requires GoodConfig(cfg) && AgreeExcept(cfg, s, lost) && Possible(s, op) && KindFree(op)
    ensures AgreeExcept(cfg, Step(cfg, s, op), Lost(cfg, s, lost, op))
  {
    match op
    case Observe(d, at, up) =>
      if Accepted(cfg, d) {
        ObserveKeeps(cfg, s, lost, d, at, up);
      }
    case Flush(order, up) => FlushKeeps(cfg, s, lost, order, up);
    case Prune(source, cutoff, up) => ClearKeeps(cfg, s, lost, Idle(s.active, source, cutoff), cutoff, up);
    case Resolve(subject, at, up) => ClearKeeps(cfg, s, lost, AboutSubject(s.active, subject), at, up);
    case Restart(loaded, up) =>
      if up {
        RestartKeeps(cfg, s, loaded);
      } else {
        FailedRestartKeeps(cfg, s, lost, loaded);
      }
  }

  /** When a failure is over: a call that succeeds loses no key, a reload none at all, and a key is found again as soon as
      its dirty mark is flushed, it is sighted for the first time, or it is cleared. */
  lemma FailureEnds(cfg: Config, s: System, lost: set<Key>, op: Op, k: Key)
    requires op.up
    ensures Lost(cfg, s, lost, op) <= lost
    ensures op.Restart? ==> Lost(cfg, s, lost, op) == {}
    ensures op.Flush? && k in s.dirty ==> k !in Lost(cfg, s, lost, op)
    ensures op.Observe? && op.d.defKey in cfg.catalog && !op.d.severity.Unknown? && k == KeyOf(op.d) && k !in s.active ==>
              k !in Lost(cfg, s, lost, op)
    ensures op.Prune? && k in s.active && s.active[k].det.source == op.source && s.active[k].lastSeen < op.cutoff ==>
              k !in Lost(cfg, s, lost, op)
    ensures op.Resolve? && k in s.active && op.subject == SubjectRef(k.kind, k.id) ==> k !in Lost(cfg, s, lost, op)
  {
  }

  /** The lost keys at the end of a run. */
  function LostAfter(cfg: Config, s: System, lost: set<Key>, ops: seq<Op>): set<Key>
    decreases |ops|
  {
    if ops == [] || !Possible(s, ops[0]) then lost
    else LostAfter(cfg, Step(cfg, s, ops[0]), Lost(cfg, s, lost, ops[0]), ops[1..])
  }

  /** Main safety theorem: after every run of observations, flushes, prunes, recoveries and restarts, whichever
      store calls fail, engine and store agree at every key whose latest store call succeeded. */
  lemma {:induction false} RunsKeep(cfg: Config, s: System, lost: set<Key>, ops: seq<Op>, r: System)
    requires GoodConfig(cfg) && AgreeExcept(cfg, s, lost) && Runs(cfg, s, ops, r)
    requires forall i :: 0 <= i < |ops| ==> KindFree(ops[i])
    ensures AgreeExcept(cfg, r, LostAfter(cfg, s, lost, ops))
    decreases |ops|
  {
    if ops != [] {
      StepKeeps(cfg, s, lost, ops[0]);
      RunsKeep(cfg, Step(cfg, s, ops[0]), Lost(cfg, s, lost, ops[0]), ops[1..], r);
    }
  }

  lemma {:induction false} NothingLost(cfg: Config, s: System, ops: seq<Op>, r: System)
    requires Runs(cfg, s, ops, r) && forall i :: 0 <= i < |ops| ==> ops[i].up
    ensures LostAfter(cfg, s, {}, ops) == {}
    decreases |ops|
  {
    if ops != [] {
      NothingLost(cfg, Step(cfg, s, ops[0]), ops[1..], r);
      assert Lost(cfg, s, {}, ops[0]) == {};
    }
  }

  /** Without a store error, every run from the empty state ends in full agreement: the ids the store holds open are
      exactly the record ids of the live keys, the dirty keys are live, and every clean key is settled. */
  lemma SmoothRunsAgree(cfg: Config, ops: seq<Op>, r: System)
    requires GoodConfig(cfg) && Runs(cfg, EMPTY, ops, r)
    requires forall i :: 0 <= i < |ops| ==> ops[i].up && KindFree(ops[i])
    ensures Agree(cfg, r)
    ensures OpenIds(r.rows) == Ids(r.active.Keys) && |OpenIds(r.rows)| == |r.active|
    ensures r.dirty <= r.active.Keys
    ensures forall k :: k in r.active && k !in r.dirty ==> Settled(cfg, r, k)
  {
    RunsKeep(cfg, EMPTY, {}, ops, r);
    NothingLost(cfg, EMPTY, ops, r);
    OpenIdsAreLiveIds(cfg, r);
    forall k | k in r.active && k !in r.dirty ensures Settled(cfg, r, k) {
      assert KeyAgrees(cfg, r, k);
    }
  }

  /** What settled means in such runs, restarts included: the row of every clean live key is open and holds its source,
      evidence, times and count, and as severity the projected one or, since a restart, the base. */
  lemma CleanRowsAreCurrent(cfg: Config, ops: seq<Op>, r: System, k: Key)
    requires GoodConfig(cfg) && Runs(cfg, EMPTY, ops, r) && k in r.active && k !in r.dirty
    requires forall i :: 0 <= i < |ops| ==> ops[i].up && KindFree(ops[i])
    ensures IsOpen(r.rows, k)
    ensures var rec, t := SlotOf(r.rows, k).row.rec, r.active[k];
            && rec.source == t.det.source && rec.anomaly.evidence == t.det.evidence
            && rec.anomaly.firstSeen == t.firstSeen && rec.anomaly.lastSeen == t.lastSeen && rec.anomaly.count == t.count
            && (rec.anomaly.severity == Project(cfg, t).severity || rec.anomaly.severity == t.base)
  {
    SmoothRunsAgree(cfg, ops, r);
  }

  /** What agreement means for the rows: the ids the store holds open are the record ids of the live keys. */
  lemma OpenIdsAreLiveIds(cfg: Config, s: System)
    requires Agree(cfg, s)
    ensures OpenIds(s.rows) == Ids(s.active.Keys)
    ensures |OpenIds(s.rows)| == |s.active|
  {
    forall id | id in OpenIds(s.rows) ensures id in Ids(s.active.Keys) {
      var k := RecordKey(s.rows[id].rec);
      assert RowNamed(cfg, id, s.rows[id]);
      assert KeyAgrees(cfg, s, k);
    }
    forall id | id in Ids(s.active.Keys) ensures id in OpenIds(s.rows) {
      var k :| k in s.active.Keys && IdOf(k) == id;
      assert KeyAgrees(cfg, s, k);
    }
    IdsCount(s.active.Keys);
  }

  lemma {:induction false} IdsCount(keys: set<Key>)
    requires forall k :: k in keys ==> Encodable(k)
    ensures |Ids(keys)| == |keys|
  {
    if keys == {} {
      assert Ids(keys) == {};
    } else {
      var k :| k in keys;
      IdsCount(keys - {k});
      assert Ids(keys) == Ids(keys - {k}) + {IdOf(k)};
      if IdOf(k) in Ids(keys - {k}) {
        var l :| l in keys - {k} && IdOf(l) == IdOf(k);
        IdInjective(k, l);
      }
    }
  }
}
