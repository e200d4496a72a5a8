/** The SQL repository behind the port. Its upsert refreshes only some columns of an existing row and its timestamps
    have second precision, so it refines the port's contract only up to those columns. This module says exactly
    what its rows are in terms of the port's rows, over every run. */
module AnomalySql {
  import opened AnomalyModel
  import opened AnomalyEngine
  import opened AnomalyStore
  import opened AnomalyCoordinator
  import opened AnomalyAgreement
  import opened AnomalyDurability

  const SECOND: int := 1_000_000_000

  /** The instant an RFC 3339 timestamp without fractional seconds denotes. */
  function Floor(t: Time): Time {
    t / SECOND * SECOND
  }

  /** What a row can hold of a record: no impact, no follow-ups, whole seconds. */
  function Columns(r: Record): Record {
    r.(anomaly := r.anomaly.(
       impact := "", followUps := [], firstSeen := Floor(r.anomaly.firstSeen), lastSeen := Floor(r.anomaly.lastSeen)))
  }

  /** The columns an update leaves as the first insert wrote them. */
  function KeepFixed(incoming: Record, stored: Record): Record {
    incoming.(source := stored.source,
           anomaly := incoming.anomaly.(
             defKey := stored.anomaly.defKey, category := stored.anomaly.category, subject := stored.anomaly.subject,
             firstSeen := stored.anomaly.firstSeen))
  }

  function SqlPut(rows: Rows, r: Record): Rows {
    var c := Columns(r);
    rows[r.id := Row(if r.id in rows then KeepFixed(c, rows[r.id].rec) else c, Open)]
  }

  function SqlPutAll(rows: Rows, recs: seq<Record>): Rows {
    if recs == [] then rows
    else SqlPut(SqlPutAll(rows, recs[..|recs| - 1]), recs[|recs| - 1])
  }

  function SqlMarkAll(rows: Rows, ids: set<string>, at: Time): Rows {
    MarkAll(rows, ids, Floor(at))
  }

  /** One coordinator call over the SQL repository. */
  function SqlStep(cfg: Config, s: System, op: Op): System
    requires Possible(s, op)
  {
    match op
    case Observe(d, at, up) =>
      if Accepted(cfg, d) && Material(cfg, s.active, d) then
        var active := Fold(cfg, s.active, d, at);
        System(active, s.dirty, if up then SqlPutAll(s.rows, RecordsFor(cfg, active, [KeyOf(d)])) else s.rows)
      else Step(cfg, s, op)
    case Flush(order, up) =>
      System(s.active, {}, if up then SqlPutAll(s.rows, RecordsFor(cfg, s.active, order)) else s.rows)
    case Prune(source, cutoff, up) => SqlClear(s, Idle(s.active, source, cutoff), cutoff, up)
    case Resolve(subject, at, up) => SqlClear(s, AboutSubject(s.active, subject), at, up)
    case Restart(_, _) => Step(cfg, s, op)
  }

  function SqlClear(s: System, keys: set<Key>, at: Time, up: bool): System {
    System(s.active - keys, s.dirty - keys, if up then SqlMarkAll(s.rows, Ids(keys), at) else s.rows)
  }

  ghost predicate SqlRuns(cfg: Config, s: System, ops: seq<Op>, r: System)
    decreases |ops|
  {
    if ops == [] then r == s
    else Possible(s, ops[0]) && SqlRuns(cfg, SqlStep(cfg, s, ops[0]), ops[1..], r)
  }

  /** What a store-backed read adds: the two static fields a row does not hold. */
  function EnrichStatic(cfg: Config, a: Anomaly): Anomaly {
    if a.defKey !in cfg.catalog then a
    else
      var def := cfg.catalog[a.defKey];
      a.(impact := def.impact, followUps := ProjectFollowUps(cfg.capabilities, def.followUps))
  }

  /** A read through the store and a read from memory present the same view, in whole seconds. */
  lemma StoredReadIsLiveRead(cfg: Config, t: Tracked)
    requires WellFormed(cfg.catalog) && t.det.defKey in cfg.catalog
    ensures EnrichStatic(cfg, Columns(RecordFor(cfg, t)).anomaly) ==
            Project(cfg, t).(firstSeen := Floor(t.firstSeen), lastSeen := Floor(t.lastSeen))
  {
  }

  // ----- Rows of the repository in terms of rows of the port -----

  /** Source and firstSeen of the first record ever inserted under an id. */
  datatype Origin = Origin(source: string, firstSeen: Time)

  type Origins = map<string, Origin>

  function Note(origins: Origins, r: Record): Origins {
    if r.id in origins then origins else origins[r.id := Origin(r.source, r.anomaly.firstSeen)]
  }

  function NoteAll(origins: Origins, recs: seq<Record>): Origins {
    if recs == [] then origins else Note(NoteAll(origins, recs[..|recs| - 1]), recs[|recs| - 1])
  }

  function NoteStep(cfg: Config, s: System, origins: Origins, op: Op): Origins {
    match op
    case Observe(d, at, up) =>
      if up && Accepted(cfg, d) && Material(cfg, s.active, d)
      then NoteAll(origins, RecordsFor(cfg, Fold(cfg, s.active, d, at), [KeyOf(d)])) else origins
    case Flush(order, up) => if up then NoteAll(origins, RecordsFor(cfg, s.active, order)) else origins
    case _ => origins
  }

  function Pinned(r: Record, o: Origin): Record {
    Columns(r).(source := o.source, anomaly := Columns(r).anomaly.(firstSeen := Floor(o.firstSeen)))
  }

  function FloorResolution(r: Resolution): Resolution {
    if r.ResolvedAt? then ResolvedAt(Floor(r.at)) else Open
  }

  predicate CategoryOk(cfg: Config, r: Record) {
    r.anomaly.category == Lookup(cfg.catalog, r.anomaly.defKey).category
  }

  predicate RowRefines(cfg: Config, id: string, port: Row, sql: Row, o: Origin) {
    && RowNamed(cfg, id, port) && CategoryOk(cfg, port.rec)
    && sql == Row(Pinned(port.rec, o), FloorResolution(port.resolution))
  }

  ghost predicate Refines(cfg: Config, port: Rows, sql: Rows, origins: Origins) {
    && port.Keys == sql.Keys == origins.Keys
    && forall id :: id in port ==> RowRefines(cfg, id, port[id], sql[id], origins[id])
  }

  /** An update of an existing row writes the pinned record: the id determines the other fixed columns. */
  lemma UpdatePins(cfg: Config, t: Tracked, port: Row, sql: Row, o: Origin)
    requires GoodConfig(cfg) && t.det.defKey in cfg.catalog && Encodable(KeyOf(t.det))
    requires RowRefines(cfg, RecordFor(cfg, t).id, port, sql, o)
    ensures KeepFixed(Columns(RecordFor(cfg, t)), sql.rec) == Pinned(RecordFor(cfg, t), o)
  {
    RecordForKey(cfg, t);
    IdInjective(KeyOf(t.det), RecordKey(port.rec));
    assert port.rec.anomaly.subject == t.det.subject;
  }

  lemma PutRefines(cfg: Config, port: Rows, sql: Rows, origins: Origins, t: Tracked)
    requires GoodConfig(cfg) && Refines(cfg, port, sql, origins)
    requires t.det.defKey in cfg.catalog && Encodable(KeyOf(t.det))
    ensures var r := RecordFor(cfg, t); Refines(cfg, Put(port, r), SqlPut(sql, r), Note(origins, r))
  {
    var r := RecordFor(cfg, t);
    RecordForKey(cfg, t);
    if r.id in port {
      UpdatePins(cfg, t, port[r.id], sql[r.id], origins[r.id]);
    }
    assert RowRefines(cfg, r.id, Put(port, r)[r.id], SqlPut(sql, r)[r.id], Note(origins, r)[r.id]);
  }

  lemma BatchAppends(port: Rows, sql: Rows, origins: Origins, recs: seq<Record>, r: Record)
    ensures PutAll(port, recs + [r]) == Put(PutAll(port, recs), r)
    ensures SqlPutAll(sql, recs + [r]) == SqlPut(SqlPutAll(sql, recs), r)
    ensures NoteAll(origins, recs + [r]) == Note(NoteAll(origins, recs), r)
  {
    assert (recs + [r])[..|recs|] == recs;
  }

  lemma {:induction false} BatchRefines(cfg: Config, port: Rows, sql: Rows, origins: Origins, active: Active, order: seq<Key>)
    requires GoodConfig(cfg) && Refines(cfg, port, sql, origins) && LiveOk(cfg, active)
    ensures var recs := RecordsFor(cfg, active, order);
            Refines(cfg, PutAll(port, recs), SqlPutAll(sql, recs), NoteAll(origins, recs))
  {
    if order != [] {
      var init, k := order[..|order| - 1], order[|order| - 1];
      BatchRefines(cfg, port, sql, origins, active, init);
      if k in active {
        var recs := RecordsFor(cfg, active, init);
        BatchAppends(port, sql, origins, recs, RecordFor(cfg, active[k]));
        PutRefines(cfg, PutAll(port, recs), SqlPutAll(sql, recs), NoteAll(origins, recs), active[k]);
      }
    }
  }

  lemma MarkRefines(cfg: Config, port: Rows, sql: Rows, origins: Origins, ids: set<string>, at: Time)
    requires Refines(cfg, port, sql, origins)
    ensures Refines(cfg, MarkAll(port, ids, at), SqlMarkAll(sql, ids, at), origins)
  {
    var port', sql' := MarkAll(port, ids, at), SqlMarkAll(sql, ids, at);
    forall id | id in port' ensures RowRefines(cfg, id, port'[id], sql'[id], origins[id]) {
      assert RowRefines(cfg, id, port[id], sql[id], origins[id]);
    }
  }

  /** The coordinator over the repository in step with the one over the port. */
  ghost predicate Follows(cfg: Config, s: System, sql: System, origins: Origins) {
    sql.active == s.active && sql.dirty == s.dirty && LiveOk(cfg, s.active) && Refines(cfg, s.rows, sql.rows, origins)
  }

  lemma ObserveRefines(cfg: Config, s: System, sql: System, origins: Origins, d: Detection, at: Time, up: bool)
    requires GoodConfig(cfg) && Follows(cfg, s, sql, origins) && PipeFree(d.subject.kind)
    requires Accepted(cfg, d) && Material(cfg, s.active, d)
    ensures var op := Observe(d, at, up);
            Follows(cfg, Step(cfg, s, op), SqlStep(cfg, sql, op), NoteStep(cfg, s, origins, op))
  {
    FoldLiveOk(cfg, s.active, d, at);
    BatchRefines(cfg, s.rows, sql.rows, origins, Fold(cfg, s.active, d, at), [KeyOf(d)]);
  }

  lemma RecurrenceRefines(cfg: Config, s: System, sql: System, origins: Origins, d: Detection, at: Time, up: bool)
    requires GoodConfig(cfg) && Follows(cfg, s, sql, origins) && PipeFree(d.subject.kind)
    requires !Accepted(cfg, d) || !Material(cfg, s.active, d)
    ensures var op := Observe(d, at, up);
            Follows(cfg, Step(cfg, s, op), SqlStep(cfg, sql, op), NoteStep(cfg, s, origins, op))
  {
    FoldLiveOk(cfg, s.active, d, at);
  }

  lemma ClearRefines(cfg: Config, s: System, sql: System, origins: Origins, keys: set<Key>, at: Time, up: bool)
    requires Follows(cfg, s, sql, origins)
    ensures Follows(cfg, ClearStep(s, keys, at, up), SqlClear(sql, keys, at, up), origins)
  {
    MarkRefines(cfg, s.rows, sql.rows, origins, Ids(keys), at);
  }

  lemma StepRefines(cfg: Config, s: System, sql: System, origins: Origins, op: Op)
    requires GoodConfig(cfg) && Follows(cfg, s, sql, origins) && KindFree(op) && !op.Restart? && Possible(s, op)
    ensures Possible(sql, op)
    ensures Follows(cfg, Step(cfg, s, op), SqlStep(cfg, sql, op), NoteStep(cfg, s, origins, op))
  {
    match op
    case Observe(d, at, up) =>
      if Accepted(cfg, d) && Material(cfg, s.active, d) {
        ObserveRefines(cfg, s, sql, origins, d, at, up);
      } else {
        RecurrenceRefines(cfg, s, sql, origins, d, at, up);
      }
    case Flush(order, up) => BatchRefines(cfg, s.rows, sql.rows, origins, s.active, order);
    case Prune(source, cutoff, up) => ClearRefines(cfg, s, sql, origins, Idle(s.active, source, cutoff), cutoff, up);
    case Resolve(subject, at, up) => ClearRefines(cfg, s, sql, origins, AboutSubject(s.active, subject), at, up);
  }

  function NoteRun(cfg: Config, s: System, origins: Origins, ops: seq<Op>): Origins
    decreases |ops|
  {
    if ops == [] || !Possible(s, ops[0]) then origins
    else NoteRun(cfg, Step(cfg, s, ops[0]), NoteStep(cfg, s, origins, ops[0]), ops[1..])
  }

  /** Over every run without a restart, whichever store calls fail, the repository has the same ids as the port's
      store with the same openness, and each row is the port's row in whole seconds, except that source and
      firstSeen are those of the first record ever inserted under that id. */
  lemma {:induction false} RunsRefine(cfg: Config, s: System, sql: System, origins: Origins, ops: seq<Op>, r: System)
    returns (q: System)
    requires GoodConfig(cfg) && Follows(cfg, s, sql, origins) && Runs(cfg, s, ops, r)
    requires forall i :: 0 <= i < |ops| ==> KindFree(ops[i]) && !ops[i].Restart?
    ensures SqlRuns(cfg, sql, ops, q) && Follows(cfg, r, q, NoteRun(cfg, s, origins, ops))
    decreases |ops|
  {
    if ops == [] {
      q := sql;
    } else {
      StepRefines(cfg, s, sql, origins, ops[0]);
      q := RunsRefine(cfg, Step(cfg, s, ops[0]), SqlStep(cfg, sql, ops[0]), NoteStep(cfg, s, origins, ops[0]), ops[1..], r);
    }
  }

  /** When the repository keeps the port's promise. In a run without failure or restart, the row of a clean live key
      holds what the instance projects to, in whole seconds, exactly when the source and the second of firstSeen
      are still those of the row's first insert. */
  lemma RowFaithfulExactly(cfg: Config, ops: seq<Op>, r: System, q: System, k: Key)
    requires GoodConfig(cfg) && Runs(cfg, EMPTY, ops, r) && k in r.active && k !in r.dirty
    requires forall i :: 0 <= i < |ops| ==> ops[i].up && KindFree(ops[i]) && !ops[i].Restart?
    requires Refines(cfg, r.rows, q.rows, NoteRun(cfg, EMPTY, map[], ops))
    ensures IsOpen(q.rows, k) && IdOf(k) in NoteRun(cfg, EMPTY, map[], ops)
    ensures var o, t := NoteRun(cfg, EMPTY, map[], ops)[IdOf(k)], r.active[k];
            SlotOf(q.rows, k).row.rec == Columns(RecordFor(cfg, t)) <==>
            o.source == t.det.source && Floor(o.firstSeen) == Floor(t.firstSeen)
  {
    SeverityNeverLags(cfg, EMPTY, ops, r);
    assert KeyCurrent(cfg, r, k);
    assert RowRefines(cfg, IdOf(k), r.rows[IdOf(k)], q.rows[IdOf(k)], NoteRun(cfg, EMPTY, map[], ops)[IdOf(k)]);
  }

  /** What whole seconds are: the row's times are multiples of a second, at most one second before the port's, and never
      after them. Impact and follow-ups are not stored. */
  lemma RowInWholeSeconds(cfg: Config, id: string, port: Row, sql: Row, o: Origin)
    requires RowRefines(cfg, id, port, sql, o)
    ensures var a, b := port.rec.anomaly, sql.rec.anomaly;
            && b.lastSeen % 1_000_000_000 == 0 && 0 <= a.lastSeen - b.lastSeen < 1_000_000_000
            && b.firstSeen % 1_000_000_000 == 0 && 0 <= o.firstSeen - b.firstSeen < 1_000_000_000
            && b.impact == "" && b.followUps == []
    ensures port.resolution.ResolvedAt? <==> sql.resolution.ResolvedAt?
    ensures port.resolution.ResolvedAt? ==>
              sql.resolution.at % 1_000_000_000 == 0 && 0 <= port.resolution.at - sql.resolution.at < 1_000_000_000
  {
  }

  /** What a reload from a clean repository row brings back: everything the port's row would, with lastSeen in whole
      seconds and with the origin's source and firstSeen. */
  lemma ReloadFromSql(cfg: Config, id: string, port: Row, sql: Row, o: Origin)
    requires RowRefines(cfg, id, port, sql, o)
    ensures var t, u := Reload(port.rec), Reload(sql.rec);
            u == t.(det := t.det.(source := o.source), firstSeen := Floor(o.firstSeen), lastSeen := Floor(t.lastSeen))
  {
  }

  lemma SqlPutOne(rows: Rows, r: Record)
    ensures SqlPutAll(rows, [r]) == SqlPut(rows, r)
  {
    assert [r][..0] == [];
  }

  /** It does happen: a condition that is sighted, recovers and is sighted again more than a second later by another
      source is live with the new firstSeen and source, but its row keeps the old ones. */
  lemma RecreatedKeepsOrigin(cfg: Config, d: Detection, other: string, at: Time, later: Time)
    requires GoodConfig(cfg) && Accepted(cfg, d) && PipeFree(d.subject.kind)
    requires later >= at + SECOND && other != d.source
    ensures var e := d.(source := other);
            var s := SqlStep(cfg, SqlStep(cfg, SqlStep(cfg, EMPTY, Observe(d, at, true)),
                             Resolve(d.subject, at, true)), Observe(e, later, true));
            && KeyOf(d) in s.active && s.active[KeyOf(d)] == Fresh(cfg, e, later)
            && IsOpen(s.rows, KeyOf(d))
            && SlotOf(s.rows, KeyOf(d)).row.rec.source == d.source != other
            && SlotOf(s.rows, KeyOf(d)).row.rec.anomaly.firstSeen == Floor(at) < Floor(later)
  {
    var k, e := KeyOf(d), d.(source := other);
    var t, u := Fresh(cfg, d, at), Fresh(cfg, e, later);
    var s1 := SqlStep(cfg, EMPTY, Observe(d, at, true));
    RecordsOfOne(cfg, map[k := t], k);
    SqlPutOne(map[], RecordFor(cfg, t));
    RecordForKey(cfg, t);
    assert s1 == System(map[k := t], {}, map[IdOf(k) := Row(Columns(RecordFor(cfg, t)), Open)]);
    var s2 := SqlStep(cfg, s1, Resolve(d.subject, at, true));
    assert AboutSubject(s1.active, d.subject) == {k};
    assert k in {k} && IdOf(k) in Ids({k});
    assert s2.active == map[] && s2.dirty == {};
    assert s2.rows[IdOf(k)].rec == Columns(RecordFor(cfg, t));
    RecordsOfOne(cfg, map[k := u], k);
    SqlPutOne(s2.rows, RecordFor(cfg, u));
    RecordForKey(cfg, u);
  }
}
