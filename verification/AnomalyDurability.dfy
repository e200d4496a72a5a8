/** What the store is guaranteed to know between flushes, what a store failure can and cannot change, and how the
    coordinator's engine follows the plain trace semantics. */
module AnomalyDurability {
  import opened AnomalyModel
  import opened AnomalyEngine
  import opened AnomalyStore
  import opened AnomalyCoordinator
  import opened AnomalyAgreement
  import opened AnomalyTrace

  // ----- Severity and firstSeen never lag -----

  /** A stored record differs from the current one at most in count, lastSeen, evidence and source. */
  predicate LagsOnly(stored: Record, current: Record) {
    stored == current.(
      source := stored.source,
      anomaly := current.anomaly.(
        count := stored.anomaly.count, lastSeen := stored.anomaly.lastSeen, evidence := stored.anomaly.evidence))
  }

  /** A live key's row is open, lags at most in the deferred columns, and does not lag at all when clean. */
  ghost predicate KeyCurrent(cfg: Config, s: System, k: Key) {
    k in s.active ==>
      && IsOpen(s.rows, k)
      && LagsOnly(SlotOf(s.rows, k).row.rec, RecordFor(cfg, s.active[k]))
      && (k !in s.dirty ==> SlotOf(s.rows, k).row.rec == RecordFor(cfg, s.active[k]))
  }

  ghost predicate Current(cfg: Config, s: System) {
    forall k :: KeyCurrent(cfg, s, k)
  }

  /** A recurrence that is not material changes the projection only in the deferred columns. */
  lemma RecurrenceDefers(cfg: Config, active: Active, d: Detection, at: Time)
    requires KeyOf(d) in active && Coherent(cfg, active) && !Material(cfg, active, d)
    ensures LagsOnly(RecordFor(cfg, active[KeyOf(d)]), RecordFor(cfg, Fold(cfg, active, d, at)[KeyOf(d)]))
  {
    assert active[KeyOf(d)].det.subject == d.subject;
  }

  /** Under an unchanged base severity, one sighting of a live instance is written through: the one with which the count
      reaches the threshold, if that moves the severity at all. Every other recurrence is deferred. */
  lemma EscalationWritesOnce(cfg: Config, active: Active, d: Detection)
    requires KeyOf(d) in active && active[KeyOf(d)].base == BaseSeverity(cfg, d)
    ensures var t := active[KeyOf(d)];
            Material(cfg, active, d) <==>
            t.count + 1 == cfg.escalateAfter && cfg.escalateAfter > 0 && Valid(t.base) && t.base != Critical
  {
  }

  /** Which sightings are written at once: the first of a key, one that changes its base severity, and one that changes
      its projected severity. Every other one only marks the key dirty. */
  lemma WriteThroughExactly(cfg: Config, s: System, d: Detection, at: Time)
    requires GoodConfig(cfg) && LiveOk(cfg, s.active) && d.defKey in cfg.catalog && !d.severity.Unknown?
    ensures var k, r := KeyOf(d), Step(cfg, s, Observe(d, at, true));
            k in r.active &&
            if k !in s.active || s.active[k].base != r.active[k].base ||
               Project(cfg, s.active[k]).severity != Project(cfg, r.active[k]).severity
            then r.dirty == s.dirty && SlotOf(r.rows, k) == Holds(Row(RecordFor(cfg, r.active[k]), Open))
            else r.dirty == s.dirty + {k} && r.rows == s.rows
  {
    var k, active := KeyOf(d), Fold(cfg, s.active, d, at);
    RecordsOfOne(cfg, active, k);
    assert [RecordFor(cfg, active[k])][..0] == [];
    RecordForKey(cfg, active[k]);
  }

  lemma MaterialCurrent(cfg: Config, s: System, d: Detection, at: Time, l: Key)
    requires GoodConfig(cfg) && LiveOk(cfg, s.active) && KeyCurrent(cfg, s, l) && PipeFree(d.subject.kind)
    requires Accepted(cfg, d) && Material(cfg, s.active, d)
    ensures KeyCurrent(cfg, ObserveStep(cfg, s, d, at, true), l)
  {
    var active := Fold(cfg, s.active, d, at);
    FoldLiveOk(cfg, s.active, d, at);
    if l in active {
      BatchAt(cfg, s.rows, active, [KeyOf(d)], l);
    }
  }

  lemma RecurrenceCurrent(cfg: Config, s: System, d: Detection, at: Time, l: Key)
    requires LiveOk(cfg, s.active) && KeyCurrent(cfg, s, l)
    requires Accepted(cfg, d) && !Material(cfg, s.active, d)
    ensures KeyCurrent(cfg, ObserveStep(cfg, s, d, at, true), l)
  {
    if l == KeyOf(d) && l in s.active {
      RecurrenceDefers(cfg, s.active, d, at);
    }
  }

  lemma FlushCurrent(cfg: Config, s: System, order: seq<Key>, l: Key)
    requires GoodConfig(cfg) && LiveOk(cfg, s.active) && KeyCurrent(cfg, s, l) && Enumerates(order, s.dirty)
    ensures KeyCurrent(cfg, FlushStep(cfg, s, order, true), l)
  {
    if l in s.active {
      FlushWrites(cfg, s, order, l);
    }
  }

  lemma ClearCurrent(cfg: Config, s: System, keys: set<Key>, at: Time, l: Key)
    requires LiveOk(cfg, s.active) && KeyCurrent(cfg, s, l) && keys <= s.active.Keys
    ensures KeyCurrent(cfg, ClearStep(s, keys, at, true), l)
  {
    if l in s.active && l !in keys {
      MarkAt(s.rows, keys, at, l);
    }
  }

  lemma StepCurrent(cfg: Config, s: System, op: Op, l: Key)
    requires GoodConfig(cfg) && LiveOk(cfg, s.active) && KeyCurrent(cfg, s, l) && Possible(s, op)
    requires op.up && KindFree(op) && !op.Restart?
    ensures KeyCurrent(cfg, Step(cfg, s, op), l)
  {
    match op
    case Observe(d, at, _) =>
      if Accepted(cfg, d) {
        if Material(cfg, s.active, d) {
          MaterialCurrent(cfg, s, d, at, l);
        } else {
          RecurrenceCurrent(cfg, s, d, at, l);
        }
      }
    case Flush(order, _) => FlushCurrent(cfg, s, order, l);
    case Prune(source, cutoff, _) => ClearCurrent(cfg, s, Idle(s.active, source, cutoff), cutoff, l);
    case Resolve(subject, at, _) => ClearCurrent(cfg, s, AboutSubject(s.active, subject), at, l);
  }

  lemma StepKeepsCurrent(cfg: Config, s: System, op: Op)
    requires GoodConfig(cfg) && Agree(cfg, s) && Current(cfg, s) && Possible(s, op)
    requires op.up && KindFree(op) && !op.Restart?
    ensures Current(cfg, Step(cfg, s, op)) && Agree(cfg, Step(cfg, s, op))
  {
    forall l ensures KeyCurrent(cfg, Step(cfg, s, op), l) {
      assert KeyCurrent(cfg, s, l);
      StepCurrent(cfg, s, op, l);
    }
    StepKeeps(cfg, s, {}, op);
    assert Lost(cfg, s, {}, op) == {};
  }

  /** In every run without a store error and without a restart, at all times and even between flushes, every live
      instance has an open row with its current severity and firstSeen and with its current catalog copy; only
      count, lastSeen, evidence and source may lag, and only while the key is dirty. */
  lemma {:induction false} SeverityNeverLags(cfg: Config, s: System, ops: seq<Op>, r: System)
    requires GoodConfig(cfg) && Agree(cfg, s) && Current(cfg, s) && Runs(cfg, s, ops, r)
    requires forall i :: 0 <= i < |ops| ==> ops[i].up && KindFree(ops[i]) && !ops[i].Restart?
    ensures Current(cfg, r) && Agree(cfg, r)
    decreases |ops|
  {
    if ops != [] {
      StepKeepsCurrent(cfg, s, ops[0]);
      SeverityNeverLags(cfg, Step(cfg, s, ops[0]), ops[1..], r);
    }
  }

  /** The same from the empty state, as a statement about the two columns. */
  lemma StoredSeverityIsLive(cfg: Config, ops: seq<Op>, r: System, k: Key)
    requires GoodConfig(cfg) && Runs(cfg, EMPTY, ops, r) && k in r.active
    requires forall i :: 0 <= i < |ops| ==> ops[i].up && KindFree(ops[i]) && !ops[i].Restart?
    ensures IsOpen(r.rows, k)
    ensures var stored := SlotOf(r.rows, k).row.rec.anomaly;
            && stored.severity == (if 0 < cfg.escalateAfter <= r.active[k].count then Bump(r.active[k].base)
                                   else r.active[k].base)
            && stored.firstSeen == r.active[k].firstSeen
  {
    SeverityNeverLags(cfg, EMPTY, ops, r);
    assert KeyCurrent(cfg, r, k);
  }

  // ----- Store failures never reach the engine -----

  predicate SameCall(a: Op, b: Op) {
    match a
    case Observe(d, at, _) => b.Observe? && b.d == d && b.at == at
    case Flush(order, _) => b.Flush? && b.order == order
    case Prune(source, cutoff, _) => b.Prune? && b.source == source && b.cutoff == cutoff
    case Resolve(subject, at, _) => b.Resolve? && b.subject == subject && b.at == at
    case Restart(_, _) => false
  }

  /** Two runs of the same calls from the same live set and dirty set end with the same live set and the same dirty
      set, whichever store calls fail in either and whatever the store held. */
  lemma {:induction false} EngineIgnoresFailures(cfg: Config, s: System, ops: seq<Op>, r: System,
                                                 s': System, ops': seq<Op>, r': System)
    requires s.active == s'.active && s.dirty == s'.dirty
    requires Runs(cfg, s, ops, r) && Runs(cfg, s', ops', r')
    requires |ops| == |ops'| && forall i :: 0 <= i < |ops| ==> SameCall(ops[i], ops'[i])
    ensures r.active == r'.active && r.dirty == r'.dirty
    decreases |ops|
  {
    if ops != [] {
      assert SameCall(ops[0], ops'[0]);
      EngineIgnoresFailures(cfg, Step(cfg, s, ops[0]), ops[1..], r, Step(cfg, s', ops'[0]), ops'[1..], r');
    }
  }

  function EventOf(op: Op): seq<Event> {
    match op
    case Observe(d, at, _) => [Seen(d, at)]
    case Flush(_, _) => []
    case Prune(source, cutoff, _) => [Pruned(source, cutoff)]
    case Resolve(subject, _, _) => [Recovered(subject)]
    case Restart(_, _) => []
  }

  function EventsOf(ops: seq<Op>): seq<Event> {
    if ops == [] then [] else EventOf(ops[0]) + EventsOf(ops[1..])
  }

  /** The coordinator refines the engine's trace semantics: persistence, flushing and failing never change what is
      live. */
  lemma {:induction false} CoordinatorFollowsTrace(cfg: Config, s: System, ops: seq<Op>, r: System)
    requires Runs(cfg, s, ops, r) && forall i :: 0 <= i < |ops| ==> !ops[i].Restart?
    ensures r.active == Run(cfg, s.active, EventsOf(ops))
    decreases |ops|
  {
    if ops != [] {
      var next := Step(cfg, s, ops[0]);
      CoordinatorFollowsTrace(cfg, next, ops[1..], r);
      RunAppend(cfg, s.active, EventOf(ops[0]), EventsOf(ops[1..]));
      var e := EventOf(ops[0]);
      if e != [] {
        assert e[..|e| - 1] == [];
      }
    }
  }

  /** Hence every instance the coordinator holds is the summary of its own key's sightings. */
  lemma CoordinatorTracksSightings(cfg: Config, ops: seq<Op>, r: System, k: Key)
    requires Runs(cfg, EMPTY, ops, r) && forall i :: 0 <= i < |ops| ==> !ops[i].Restart?
    ensures Tracks(cfg, r.active, k, Sightings(cfg, EventsOf(ops), k))
  {
    CoordinatorFollowsTrace(cfg, EMPTY, ops, r);
    TraceRefinement(cfg, EventsOf(ops), k);
  }

  // ----- A failed write is not retried -----

  predicate RowCurrent(cfg: Config, s: System, k: Key)
    requires k in s.active
  {
    SlotOf(s.rows, k) == Holds(Row(RecordFor(cfg, s.active[k]), Open))
  }

  /** A successful flush brings a live key's row up to date exactly when the key is dirty or the row already was
      current; being live is not enough. */
  lemma FlushRepairsExactly(cfg: Config, s: System, order: seq<Key>, k: Key)
    requires GoodConfig(cfg) && LiveOk(cfg, s.active) && Enumerates(order, s.dirty) && k in s.active
    ensures RowCurrent(cfg, FlushStep(cfg, s, order, true), k) <==> k in s.dirty || RowCurrent(cfg, s, k)
  {
    FlushWrites(cfg, s, order, k);
  }

  /** A write-through that fails leaves no dirty mark, so the next flush writes nothing: the instance stays live
      without a row. */
  lemma FailedCreateIsNotRetried(cfg: Config, d: Detection, at: Time)
    requires Accepted(cfg, d)
    ensures Runs(cfg, EMPTY, [Observe(d, at, false), Flush([], true)],
                 System(map[KeyOf(d) := Fresh(cfg, d, at)], {}, map[]))
  {
    var ops := [Observe(d, at, false), Flush([], true)];
    var s := Step(cfg, EMPTY, ops[0]);
    assert ops[1..] == [Flush([], true)] && ops[1..][1..] == [];
    assert s == System(map[KeyOf(d) := Fresh(cfg, d, at)], {}, map[]);
    assert Possible(s, ops[1]);
    assert Step(cfg, s, ops[1]) == s;
    assert Runs(cfg, s, ops[1..], s);
  }
}
