/** The in-memory engine: one live instance per key, folded from detections, escalated by recurrence, cleared by
    idle time or by subject. Functions on maps say what each operation computes; class Engine is the mutable
    object, each method proved against its function. */
module AnomalyEngine {
  import opened AnomalyModel

  datatype Config = Config(catalog: Catalog, escalateAfter: int, capabilities: set<string>)

  /** The live state of one coalesced instance. */
  datatype Tracked = Tracked(det: Detection, base: Severity, firstSeen: Time, lastSeen: Time, count: int)

  type Active = map<Key, Tracked>

  // ----- What one observation does -----

  predicate Accepted(cfg: Config, d: Detection) {
    d.defKey in cfg.catalog && (d.severity == Unset || Valid(d.severity))
  }

  function BaseSeverity(cfg: Config, d: Detection): Severity {
    if d.severity != Unset then d.severity else Lookup(cfg.catalog, d.defKey).defaultSeverity
  }

  predicate Escalates(cfg: Config, count: int) {
    0 < cfg.escalateAfter <= count
  }

  function Effective(cfg: Config, base: Severity, count: int): Severity {
    if Escalates(cfg, count) then Bump(base) else base
  }

  function Fresh(cfg: Config, d: Detection, at: Time): Tracked {
    Tracked(d, BaseSeverity(cfg, d), at, at, 1)
  }

  function Absorb(cfg: Config, t: Tracked, d: Detection, at: Time): Tracked {
    Tracked(d, BaseSeverity(cfg, d), t.firstSeen, if at > t.lastSeen then at else t.lastSeen, t.count + 1)
  }

  function Touch(cfg: Config, active: Active, d: Detection, at: Time): Tracked {
    var k := KeyOf(d);
    if k in active then Absorb(cfg, active[k], d, at) else Fresh(cfg, d, at)
  }

  function Fold(cfg: Config, active: Active, d: Detection, at: Time): Active {
    if Accepted(cfg, d) then active[KeyOf(d) := Touch(cfg, active, d, at)] else active
  }

  /** The changes that deserve a durable write at once: a new instance, a new base severity, or an effective
      severity that the recurrence count just moved. */
  predicate Material(cfg: Config, active: Active, d: Detection) {
    var k := KeyOf(d);
    k in active ==>
      var t, base := active[k], BaseSeverity(cfg, d);
      t.base != base || Effective(cfg, base, t.count + 1) != Effective(cfg, t.base, t.count)
  }

  // ----- Which instances a clear removes -----

  function Idle(active: Active, source: string, cutoff: Time): set<Key> {
    set k | k in active && active[k].det.source == source && active[k].lastSeen < cutoff
  }

  function AboutSubject(active: Active, subject: SubjectRef): set<Key> {
    set k | k in active && k.kind == subject.kind && k.id == subject.id
  }

  // ----- Projection and reload -----

  function Degrade(capabilities: set<string>, f: FollowUp): FollowUp {
    if f.kind == Auto && f.capability != "" && f.capability !in capabilities then f.(kind := Prompt) else f
  }

  /** Follow-ups as shown: in the same order, each as it is but for its kind, which changes exactly where an automatic one
      lacks the capability it needs; that one becomes a prompt. */
  function ProjectFollowUps(capabilities: set<string>, fs: seq<FollowUp>): (r: seq<FollowUp>)
    ensures |r| == |fs|
    ensures forall i :: 0 <= i < |r| ==> r[i] == fs[i].(kind := r[i].kind)
    ensures forall i :: 0 <= i < |r| && r[i].kind != fs[i].kind ==> fs[i].kind == Auto && r[i].kind == Prompt
    ensures forall i :: 0 <= i < |r| ==>
              (r[i].kind == Auto <==> fs[i].kind == Auto && (fs[i].capability == "" || fs[i].capability in capabilities))
  {
    seq(|fs|, i requires 0 <= i < |fs| => Degrade(capabilities, fs[i]))
  }

  function Project(cfg: Config, t: Tracked): Anomaly {
    var def := Lookup(cfg.catalog, t.det.defKey);
    Anomaly(
      def.id, def.category, Effective(cfg, t.base, t.count), t.det.subject, def.title, def.description,
      def.impact, def.recommendation, def.standards, t.det.evidence,
      ProjectFollowUps(cfg.capabilities, def.followUps), t.firstSeen, t.lastSeen, t.count)
  }

  function RecordFor(cfg: Config, t: Tracked): Record {
    var a := Project(cfg, t);
    Record(RecordId(a.defKey, a.subject), t.det.source, a)
  }

  /** The key a stored record reloads into. */
  function RecordKey(r: Record): Key {
    Key(r.anomaly.defKey, r.anomaly.subject.kind, r.anomaly.subject.id)
  }

  /** A reloaded instance: the stored, already escalated severity becomes its base severity. */
  function Reload(r: Record): Tracked {
    var a := r.anomaly;
    Tracked(Detection(a.defKey, a.subject, a.severity, a.evidence, r.source),
            a.severity, a.firstSeen, a.lastSeen, a.count)
  }

  /** Reload of a whole list onto the live set; records of unknown definitions are skipped. */
  function Restored(cfg: Config, active: Active, records: seq<Record>): Active {
    if records == [] then active
    else
      var before := Restored(cfg, active, records[..|records| - 1]);
      var r := records[|records| - 1];
      if r.anomaly.defKey in cfg.catalog then before[RecordKey(r) := Reload(r)] else before
  }

  /** How many of the records name a known definition. */
  function KnownCount(cfg: Config, records: seq<Record>): nat {
    if records == [] then 0
    else
      KnownCount(cfg, records[..|records| - 1]) +
      (if records[|records| - 1].anomaly.defKey in cfg.catalog then 1 else 0)
  }

  /** Each instance sits under its own detection's key and has a catalogued definition. */
  ghost predicate Coherent(cfg: Config, active: Active) {
    forall k :: k in active ==> KeyOf(active[k].det) == k && k.def in cfg.catalog
  }

  lemma FoldCoherent(cfg: Config, active: Active, d: Detection, at: Time)
    requires Coherent(cfg, active)
    ensures Coherent(cfg, Fold(cfg, active, d, at))
  {
  }

  /** The record a live instance is stored as carries that instance's own id and reloads under its own key. */
  lemma RecordForKey(cfg: Config, t: Tracked)
    requires WellFormed(cfg.catalog) && t.det.defKey in cfg.catalog
    ensures RecordFor(cfg, t).id == IdOf(KeyOf(t.det))
    ensures RecordKey(RecordFor(cfg, t)) == KeyOf(t.det)
  {
  }

  // ----- The mutable engine -----

  function Elems<T>(s: seq<T>): set<T> {
    set x | x in s
  }

  lemma ElemsAppend<T>(s: seq<T>, x: T)
    ensures Elems(s + [x]) == Elems(s) + {x}
  {
  }

  /** Halfway through a sweep over the live set that removes the targets: the keys not yet visited are untouched,
      and the targets visited so far are gone from the map and listed once each. */
  ghost predicate Sweeping(was: Active, targets: set<Key>, todo: set<Key>, now: Active, cleared: seq<Key>) {
    && todo <= was.Keys
    && now == was - (targets - todo)
    && Elems(cleared) == targets - todo
    && |cleared| == |targets - todo|
  }

  lemma SweepSkip(was: Active, targets: set<Key>, todo: set<Key>, now: Active, cleared: seq<Key>, k: Key)
    requires Sweeping(was, targets, todo, now, cleared) && k in todo && k !in targets
    ensures Sweeping(was, targets, todo - {k}, now, cleared)
  {
    assert targets - (todo - {k}) == targets - todo;
  }

  lemma SweepDrop(was: Active, targets: set<Key>, todo: set<Key>, now: Active, cleared: seq<Key>, k: Key)
    requires Sweeping(was, targets, todo, now, cleared) && k in todo && k in targets
    ensures Sweeping(was, targets, todo - {k}, now - {k}, cleared + [k])
  {
    var gone := targets - todo;
    assert targets - (todo - {k}) == gone + {k};
    assert (was - gone) - {k} == was - (gone + {k});
    ElemsAppend(cleared, k);
  }

  datatype ObserveResult = Refused | Observed(key: Key, created: bool, material: bool)

  class Engine {
    const cfg: Config
    var active: Active

    constructor (cfg: Config)
      ensures this.cfg == cfg && active == map[]
    {
      this.cfg := cfg;
      active := map[];
    }

    method Observe(d: Detection, at: Time) returns (r: ObserveResult)
      modifies this
      ensures active == Fold(cfg, old(active), d, at)
      ensures r.Refused? <==> d.defKey !in cfg.catalog || d.severity.Unknown?
      ensures r.Observed? ==>
        && r.key == KeyOf(d)
        && (r.created <==> KeyOf(d) !in old(active))
        && (r.material <==> Material(cfg, old(active), d))
    {
      if d.defKey !in cfg.catalog {
        return Refused;
      }
      if d.severity != Unset && !Valid(d.severity) {
        return Refused;
      }
      var k, newBase := KeyOf(d), BaseSeverity(cfg, d);
      if k !in active {
        active := active[k := Tracked(d, newBase, at, at, 1)];
        return Observed(k, true, true);
      }
      var t := active[k];
      var beforeEff, baseChanged := Effective(cfg, t.base, t.count), t.base != newBase;
      t := t.(det := d, base := newBase, count := t.count + 1);
      if at > t.lastSeen {
        t := t.(lastSeen := at);
      }
      var afterEff := Effective(cfg, t.base, t.count);
      active := active[k := t];
      r := Observed(k, false, baseChanged || afterEff != beforeEff);
    }

    method Restore(records: seq<Record>) returns (n: nat)
      modifies this
      ensures active == Restored(cfg, old(active), records)
      ensures n == KnownCount(cfg, records)
    {
      n := 0;
      assert records[..|records|] == records;
      for i := 0 to |records|
        invariant n == KnownCount(cfg, records[..i])
        invariant active == Restored(cfg, old(active), records[..i])
      {
        assert records[..i + 1][..i] == records[..i];
        var r := records[i];
        if r.anomaly.defKey in cfg.catalog {
          active := active[RecordKey(r) := Reload(r)];
          n := n + 1;
        }
      }
    }

    /** Clears one source's instances last seen before the cutoff, and reports exactly those, each once. */
    method PruneKeysForSource(source: string, cutoff: Time) returns (cleared: seq<Key>)
      modifies this
      ensures active == old(active) - Idle(old(active), source, cutoff)
      ensures Elems(cleared) == Idle(old(active), source, cutoff)
      ensures |cleared| == |Idle(old(active), source, cutoff)|
    {
      cleared := [];
      var todo := active.Keys;
      ghost var was, targets := active, Idle(active, source, cutoff);
      assert targets - todo == {};
      while todo != {}
        invariant Sweeping(was, targets, todo, active, cleared)
        decreases todo
      {
        var k :| k in todo;
        if active[k].det.source == source && active[k].lastSeen < cutoff {
          SweepDrop(was, targets, todo, active, cleared, k);
          cleared := cleared + [k];
          active := active - {k};
        } else {
          SweepSkip(was, targets, todo, active, cleared, k);
        }
        todo := todo - {k};
      }
      assert targets - todo == targets;
    }

    /** Clears every instance about a subject, and reports exactly those, each once. */
    method ClearSubject(subject: SubjectRef) returns (cleared: seq<Key>)
      modifies this
      ensures active == old(active) - AboutSubject(old(active), subject)
      ensures Elems(cleared) == AboutSubject(old(active), subject)
      ensures |cleared| == |AboutSubject(old(active), subject)|
    {
      cleared := [];
      var todo := active.Keys;
      ghost var was, targets := active, AboutSubject(active, subject);
      assert targets - todo == {};
      while todo != {}
        invariant Sweeping(was, targets, todo, active, cleared)
        decreases todo
      {
        var k :| k in todo;
        if k.kind == subject.kind && k.id == subject.id {
          SweepDrop(was, targets, todo, active, cleared, k);
          cleared := cleared + [k];
          active := active - {k};
        } else {
          SweepSkip(was, targets, todo, active, cleared, k);
        }
        todo := todo - {k};
      }
      assert targets - todo == targets;
    }

    /** The records of the named keys that are still live, in the order given. */
    method RecordsForKeys(keys: seq<Key>) returns (records: seq<Record>)
      ensures records == RecordsFor(cfg, active, keys)
    {
      records := [];
      assert keys[..|keys|] == keys;
      for i := 0 to |keys|
        invariant records == RecordsFor(cfg, active, keys[..i])
      {
        assert keys[..i + 1][..i] == keys[..i];
        if keys[i] in active {
          records := records + [RecordFor(cfg, active[keys[i]])];
        }
      }
    }

    method LenBySource(source: string) returns (n: nat)
      ensures n == |OfSource(active, source)|
    {
      n := 0;
      var todo := active.Keys;
      ghost var counted: set<Key> := {};
      while todo != {}
        invariant todo <= active.Keys && counted !! todo
        invariant counted == OfSource(active, source) - todo
        invariant n == |counted|
        decreases todo
      {
        var k :| k in todo;
        todo := todo - {k};
        if active[k].det.source == source {
          n := n + 1;
          counted := counted + {k};
        }
      }
    }
  }

  function RecordsFor(cfg: Config, active: Active, keys: seq<Key>): seq<Record> {
    if keys == [] then []
    else
      var before := RecordsFor(cfg, active, keys[..|keys| - 1]);
      var k := keys[|keys| - 1];
      if k in active then before + [RecordFor(cfg, active[k])] else before
  }

  lemma RecordsOfOne(cfg: Config, active: Active, k: Key)
    requires k in active
    ensures RecordsFor(cfg, active, [k]) == [RecordFor(cfg, active[k])]
  {
    assert [k][..0] == [];
  }

  function OfSource(active: Active, source: string): set<Key> {
    set k | k in active && active[k].det.source == source
  }

  // ----- Laws of source-scoped pruning -----

  function Prune(active: Active, source: string, cutoff: Time): Active {
    active - Idle(active, source, cutoff)
  }

  /** A prune leaves other sources and recent instances exactly as they were, and what it removes plus what it
      keeps is what there was. */
  lemma PruneConserves(active: Active, source: string, cutoff: Time)
    ensures |Idle(active, source, cutoff)| + |Prune(active, source, cutoff)| == |active|
    ensures forall k :: k in active && (active[k].det.source != source || active[k].lastSeen >= cutoff) ==>
            k in Prune(active, source, cutoff) && Prune(active, source, cutoff)[k] == active[k]
    ensures forall other :: other != source ==> OfSource(Prune(active, source, cutoff), other) == OfSource(active, other)
  {
    var gone, kept := Idle(active, source, cutoff), Prune(active, source, cutoff);
    assert gone + kept.Keys == active.Keys && gone !! kept.Keys;
  }

  /** Successive prunes of one source are one prune at the later cutoff. */
  lemma PruneTwice(active: Active, source: string, c: Time, d: Time)
    ensures Prune(Prune(active, source, c), source, d) == Prune(active, source, if c < d then d else c)
  {
    var once := Prune(active, source, c);
    assert forall k :: k in once <==> k in active && k !in Idle(active, source, c);
  }

  /** Prunes of different sources commute. */
  lemma PruneCommutes(active: Active, s: string, c: Time, r: string, d: Time)
    ensures Prune(Prune(active, s, c), r, d) == Prune(Prune(active, r, d), s, c)
  {
    var left, right := Prune(active, s, c), Prune(active, r, d);
    assert forall k :: k in left <==> k in active && k !in Idle(active, s, c);
    assert forall k :: k in right <==> k in active && k !in Idle(active, r, d);
  }

  ghost function SumBySource(active: Active, sources: set<string>): nat {
    if sources == {} then 0
    else
      var s :| s in sources;
      |OfSource(active, s)| + SumBySource(active, sources - {s})
  }

  ghost function OfSources(active: Active, sources: set<string>): set<Key> {
    set k | k in active && active[k].det.source in sources
  }

  lemma OfSourcesSplit(active: Active, sources: set<string>, s: string)
    requires s in sources
    ensures |OfSources(active, sources)| == |OfSource(active, s)| + |OfSources(active, sources - {s})|
  {
    var one, rest := OfSource(active, s), OfSources(active, sources - {s});
    assert OfSources(active, sources) == one + rest;
    assert one !! rest;
  }

  /** Summing the per-source counts over a set of sources counts each of their instances exactly once. */
  lemma {:induction false} SumBySourceCounts(active: Active, sources: set<string>)
    ensures SumBySource(active, sources) == |OfSources(active, sources)|
  {
    if sources == {} {
      assert OfSources(active, sources) == {};
    } else {
      var s :| s in sources && SumBySource(active, sources) ==
        |OfSource(active, s)| + SumBySource(active, sources - {s});
      SumBySourceCounts(active, sources - {s});
      OfSourcesSplit(active, sources, s);
    }
  }

  /** Over all the sources present, the per-source counts add up to the number of live instances. */
  lemma SumBySourceIsLen(active: Active, sources: set<string>)
    requires forall k :: k in active ==> active[k].det.source in sources
    ensures SumBySource(active, sources) == |active|
  {
    SumBySourceCounts(active, sources);
    assert OfSources(active, sources) == active.Keys;
  }
}
