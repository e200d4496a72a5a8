/** Restart transparency: what survives losing the process, and how the reloaded engine behaves from then on compared
    with one that was never interrupted. */
module AnomalyRestart {
  import opened AnomalyModel
  import opened AnomalyEngine
  import opened AnomalyStore
  import opened AnomalyCoordinator
  import opened AnomalyAgreement
  import opened AnomalyTrace
  import opened AnomalyDurability

  // ----- What a restart brings back -----

  /** Losing the process at any moment and loading again brings back exactly the live keys, each with its severity,
      firstSeen and subject; only the deferred columns of dirty keys may be those of an earlier write. */
  lemma CrashLosesOnlyDeferred(cfg: Config, s: System, loaded: seq<string>, k: Key)
    requires Agree(cfg, s) && Current(cfg, s) && Enumerates(loaded, OpenIds(s.rows))
    ensures var r := RestartStep(cfg, s, loaded, true);
            && (k in r.active <==> k in s.active)
            && (k in s.active ==> IsOpen(s.rows, k) && r.active[k] == Reload(SlotOf(s.rows, k).row.rec))
            && (k in s.active ==> LagsOnly(SlotOf(s.rows, k).row.rec, RecordFor(cfg, s.active[k])))
            && (k in s.active && k !in s.dirty ==> r.active[k] == Reload(RecordFor(cfg, s.active[k])))
  {
    assert KeyAgrees(cfg, s, k) && KeyCurrent(cfg, s, k);
    RestoredLiveOk(cfg, s.rows, loaded);
    if Encodable(k) {
      RestartRevives(cfg, s, loaded, k);
    }
  }

  /** The reload of a flushed instance. */
  function Revived(cfg: Config, t: Tracked): Tracked {
    Reload(RecordFor(cfg, t))
  }

  /** After a flush, a restart changes no live key and no lifecycle field, evidence or source. The projected severity
      is unchanged exactly when the count does not escalate or the severity is already critical, and one level
      higher otherwise. */
  lemma RevivedProjection(cfg: Config, t: Tracked)
    requires WellFormed(cfg.catalog) && t.det.defKey in cfg.catalog && Valid(t.base)
    ensures var was, now := Project(cfg, t), Project(cfg, Revived(cfg, t));
            && now == was.(severity := now.severity)
            && Revived(cfg, t).det.source == t.det.source
            && (now.severity == was.severity <==>
                  cfg.escalateAfter <= 0 || t.count < cfg.escalateAfter || was.severity == Critical)
            && (now.severity != was.severity ==> Rank(now.severity) == Rank(was.severity) + 1)
  {
  }

  /** For example, an escalated instance of base info. */
  lemma RestartRaises(cfg: Config, t: Tracked)
    requires WellFormed(cfg.catalog) && t.det.defKey in cfg.catalog && t.base == Info && 0 < cfg.escalateAfter <= t.count
    ensures Project(cfg, t).severity == Warning && Project(cfg, Revived(cfg, t)).severity == Error
  {
  }

  lemma FlushedRestart(cfg: Config, s: System, order: seq<Key>, loaded: seq<string>, k: Key)
    requires GoodConfig(cfg) && Agree(cfg, s) && Current(cfg, s) && Enumerates(order, s.dirty)
    requires Enumerates(loaded, OpenIds(FlushStep(cfg, s, order, true).rows))
    ensures var r := RestartStep(cfg, FlushStep(cfg, s, order, true), loaded, true);
            (k in r.active <==> k in s.active) && (k in s.active ==> r.active[k] == Revived(cfg, s.active[k]))
  {
    StepKeepsCurrent(cfg, s, Flush(order, true));
    CrashLosesOnlyDeferred(cfg, FlushStep(cfg, s, order, true), loaded, k);
  }

  /** A second restart right after the first changes nothing more, whatever orders the rows load in: the raised
      severity does not compound. */
  lemma RestartIdempotent(cfg: Config, s: System, loaded: seq<string>, again: seq<string>)
    requires Named(cfg, s.rows) && Enumerates(loaded, OpenIds(s.rows)) && Enumerates(again, OpenIds(s.rows))
    ensures RestartStep(cfg, RestartStep(cfg, s, loaded, true), again, true) == RestartStep(cfg, s, loaded, true)
  {
    var once := RestartStep(cfg, s, loaded, true);
    var twice := RestartStep(cfg, once, again, true);
    RestoredLiveOk(cfg, s.rows, loaded);
    RestoredLiveOk(cfg, s.rows, again);
    forall k
      ensures k in once.active <==> k in twice.active
      ensures k in once.active ==> once.active[k] == twice.active[k]
    {
      if Encodable(k) {
        RestartRevives(cfg, s, loaded, k);
        RestartRevives(cfg, once, again, k);
      }
    }
    assert once.active == twice.active;
  }

  // ----- How the revived engine continues -----

  /** The live set b after a restart of the live set a: the same keys, identical where a key was seen since, and
      elsewhere a's instance reloaded. */
  ghost predicate Mirrors(cfg: Config, a: Active, b: Active, seen: set<Key>) {
    a.Keys == b.Keys && forall k :: k in a ==> b[k] == if k in seen then a[k] else Revived(cfg, a[k])
  }

  function SeenKeys(cfg: Config, trace: seq<Event>): set<Key> {
    if trace == [] then {}
    else
      var before, e := SeenKeys(cfg, trace[..|trace| - 1]), trace[|trace| - 1];
      if e.Seen? && Accepted(cfg, e.d) then before + {KeyOf(e.d)} else before
  }

  /** A reload keeps what the engine clears by, and what an observation builds on. */
  lemma RevivedKeeps(cfg: Config, t: Tracked)
    ensures var u := Revived(cfg, t);
            u.det.source == t.det.source && u.firstSeen == t.firstSeen && u.lastSeen == t.lastSeen && u.count == t.count
    ensures Revived(cfg, t).det.severity == Revived(cfg, t).base == Project(cfg, t).severity
  {
  }

  lemma MirrorsStep(cfg: Config, a: Active, b: Active, seen: set<Key>, e: Event)
    requires Mirrors(cfg, a, b, seen)
    ensures Mirrors(cfg, Apply(cfg, a, e), Apply(cfg, b, e),
                    if e.Seen? && Accepted(cfg, e.d) then seen + {KeyOf(e.d)} else seen)
  {
    match e
    case Seen(d, _) =>
      if KeyOf(d) in a {
        RevivedKeeps(cfg, a[KeyOf(d)]);
      }
    case Pruned(source, cutoff) =>
      forall k | k in a {
        RevivedKeeps(cfg, a[k]);
      }
      assert Idle(a, source, cutoff) == Idle(b, source, cutoff);
    case Recovered(subject) => assert AboutSubject(a, subject) == AboutSubject(b, subject);
  }

  /** A restarted engine mirrors the uninterrupted one under every continuation: each key observed on the way becomes
      identical, and every other one stays the reload of what the uninterrupted engine holds. */
  lemma {:induction false} MirrorsForever(cfg: Config, a: Active, b: Active, trace: seq<Event>)
    requires Mirrors(cfg, a, b, {})
    ensures Mirrors(cfg, Run(cfg, a, trace), Run(cfg, b, trace), SeenKeys(cfg, trace))
  {
    if trace != [] {
      var init := trace[..|trace| - 1];
      MirrorsForever(cfg, a, b, init);
      MirrorsStep(cfg, Run(cfg, a, init), Run(cfg, b, init), SeenKeys(cfg, init), trace[|trace| - 1]);
    }
  }

  lemma FlushedRestartMirrors(cfg: Config, s: System, order: seq<Key>, loaded: seq<string>)
    requires GoodConfig(cfg) && Agree(cfg, s) && Current(cfg, s) && Enumerates(order, s.dirty)
    requires Enumerates(loaded, OpenIds(FlushStep(cfg, s, order, true).rows))
    ensures Mirrors(cfg, s.active, RestartStep(cfg, FlushStep(cfg, s, order, true), loaded, true).active, {})
  {
    var revived := RestartStep(cfg, FlushStep(cfg, s, order, true), loaded, true);
    forall k
      ensures k in revived.active <==> k in s.active
      ensures k in s.active ==> revived.active[k] == Revived(cfg, s.active[k])
    {
      FlushedRestart(cfg, s, order, loaded, k);
    }
  }

  /** Restart transparency, end to end. Take any run without failure or restart, flush, restart, and go on with any
      calls, store failures included. Compared with the engine that saw all the same events and was never
      interrupted, the live keys are the same, every key observed after the restart is identical, and every other
      instance is exactly the reload of the uninterrupted one. */
  lemma RestartTransparent(cfg: Config, ops: seq<Op>, s: System, order: seq<Key>, loaded: seq<string>,
                           more: seq<Op>, r: System)
    requires GoodConfig(cfg) && Runs(cfg, EMPTY, ops, s)
    requires forall i :: 0 <= i < |ops| ==> ops[i].up && KindFree(ops[i]) && !ops[i].Restart?
    requires Enumerates(order, s.dirty)
    requires Enumerates(loaded, OpenIds(FlushStep(cfg, s, order, true).rows))
    requires Runs(cfg, RestartStep(cfg, FlushStep(cfg, s, order, true), loaded, true), more, r)
    requires forall i :: 0 <= i < |more| ==> !more[i].Restart?
    ensures Mirrors(cfg, Run(cfg, map[], EventsOf(ops) + EventsOf(more)), r.active, SeenKeys(cfg, EventsOf(more)))
  {
    var revived := RestartStep(cfg, FlushStep(cfg, s, order, true), loaded, true);
    SeverityNeverLags(cfg, EMPTY, ops, s);
    FlushedRestartMirrors(cfg, s, order, loaded);
    MirrorsForever(cfg, s.active, revived.active, EventsOf(more));
    CoordinatorFollowsTrace(cfg, EMPTY, ops, s);
    CoordinatorFollowsTrace(cfg, revived, more, r);
    RunAppend(cfg, map[], EventsOf(ops), EventsOf(more));
  }

  // ----- Base severities are always known levels -----

  ghost predicate ValidBases(active: Active) {
    forall k :: k in active ==> Valid(active[k].base)
  }

  /** Every base severity of a run is one of the four levels, so the severity clause of a restart always applies. */
  lemma {:induction false} RunKeepsValidBases(cfg: Config, active: Active, trace: seq<Event>)
    requires WellFormed(cfg.catalog) && ValidBases(active)
    ensures ValidBases(Run(cfg, active, trace))
  {
    if trace != [] {
      RunKeepsValidBases(cfg, active, trace[..|trace| - 1]);
    }
  }
}
