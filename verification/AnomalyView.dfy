/** What a live instance shows, said without the functions that compute it: which detections count, which severity is
    projected, and which columns come from the catalog and which from the sightings. */
module AnomalyView {
  import opened AnomalyModel
  import opened AnomalyEngine
  import opened AnomalyTrace

  /** The four levels, from the least urgent. */
  const LADDER: seq<Severity> := [Info, Warning, Error, Critical]

  lemma RankIsPlace(i: nat)
    requires i < |LADDER|
    ensures Rank(LADDER[i]) == i + 1 && Bump(LADDER[i]) == LADDER[if i == 3 then 3 else i + 1]
  {
  }

  // ----- Which detections count -----

  /** A detection counts exactly when its definition is in the catalog and its severity is absent or on the ladder. Then
      its key is live with this detection, its count one higher than before; otherwise nothing changes. */
  lemma SightingCounts(cfg: Config, active: Active, d: Detection, at: Time)
    ensures var k, after := Key(d.defKey, d.subject.kind, d.subject.id), Fold(cfg, active, d, at);
            if d.defKey in cfg.catalog && (d.severity == Unset || d.severity in LADDER) then
              && after.Keys == active.Keys + {k} && after[k].det == d
              && after[k].count == (if k in active then active[k].count + 1 else 1)
              && forall l :: l in active && l != k ==> after[l] == active[l]
            else after == active
  {
  }

  // ----- The projected severity -----

  /** Below the threshold, or without one, the base severity shows; from the threshold on, the next level up, and
      critical stays critical. */
  lemma ProjectedSeverity(cfg: Config, t: Tracked)
    ensures cfg.escalateAfter <= 0 || t.count < cfg.escalateAfter ==> Project(cfg, t).severity == t.base
    ensures cfg.escalateAfter > 0 && t.count >= cfg.escalateAfter ==>
              forall i :: 0 <= i < |LADDER| && t.base == LADDER[i] ==>
                Project(cfg, t).severity == LADDER[if i == 3 then 3 else i + 1]
    ensures t.base !in LADDER ==> Project(cfg, t).severity == t.base
  {
  }

  /** The base severity after a run: the last sighting's own, or else the default of its definition. */
  lemma RunBase(cfg: Config, trace: seq<Event>, k: Key)
    requires Sightings(cfg, trace, k) != []
    ensures k in Run(cfg, map[], trace)
    ensures var h, base := Sightings(cfg, trace, k), Run(cfg, map[], trace)[k].base;
            var last := h[|h| - 1].d;
            && (last.severity != Unset ==> base == last.severity)
            && (last.severity == Unset && last.defKey in cfg.catalog ==> base == cfg.catalog[last.defKey].defaultSeverity)
  {
    TraceRefinement(cfg, trace, k);
  }

  /** Over every run: with n sightings of a key since its last clear, the projected severity is the base severity while n
      is below the threshold, or without one, and one level higher from then on, up to critical. */
  lemma RunSeverity(cfg: Config, trace: seq<Event>, k: Key)
    requires k in Run(cfg, map[], trace)
    ensures var n, t := |Sightings(cfg, trace, k)|, Run(cfg, map[], trace)[k];
            && (cfg.escalateAfter <= 0 || n < cfg.escalateAfter ==> Project(cfg, t).severity == t.base)
            && (cfg.escalateAfter > 0 && n >= cfg.escalateAfter ==>
                  forall i :: 0 <= i < |LADDER| && t.base == LADDER[i] ==>
                    Project(cfg, t).severity == LADDER[if i == 3 then 3 else i + 1])
  {
    TraceRefinement(cfg, trace, k);
    ProjectedSeverity(cfg, Run(cfg, map[], trace)[k]);
  }

  // ----- The other columns -----

  /** Over every run: a live key shows its definition's own texts, its subject, the evidence of its last sighting, the
      times of its first and latest sighting and their number. */
  lemma RunShows(cfg: Config, trace: seq<Event>, k: Key)
    requires WellFormed(cfg.catalog) && k in Run(cfg, map[], trace)
    ensures k.def in cfg.catalog && Sightings(cfg, trace, k) != []
    ensures var a, def := Project(cfg, Run(cfg, map[], trace)[k]), cfg.catalog[k.def];
            && a.defKey == k.def && a.subject.kind == k.kind && a.subject.id == k.id
            && a.category == def.category && a.title == def.title && a.description == def.description
            && a.impact == def.impact && a.recommendation == def.recommendation && a.standards == def.standards
            && |a.followUps| == |def.followUps|
    ensures var a, h := Project(cfg, Run(cfg, map[], trace)[k]), Sightings(cfg, trace, k);
            && a.evidence == h[|h| - 1].d.evidence && a.firstSeen == h[0].at && a.count == |h|
            && (forall i :: 0 <= i < |h| ==> h[i].at <= a.lastSeen) && (exists i :: 0 <= i < |h| && a.lastSeen == h[i].at)
  {
    TraceRefinement(cfg, trace, k);
    RunCoherent(cfg, map[], trace);
  }

  /** What the catalog's validation is for: every view of a catalogued instance is complete. It has a title, a
      description and a recommendation, one of the seven categories, and follow-ups that have a title and either ask or
      run with a capability that is there. */
  lemma ViewIsComplete(cfg: Config, t: Tracked)
    requires WellFormed(cfg.catalog) && t.det.defKey in cfg.catalog
    ensures var a := Project(cfg, t);
            && a.defKey != "" && a.title != "" && a.description != "" && a.recommendation != ""
            && a.category in ["security", "rf", "roaming", "capacity", "standards", "authorization", "nethealth"]
            && forall i :: 0 <= i < |a.followUps| ==>
                 && a.followUps[i].title != ""
                 && (a.followUps[i].kind == Prompt ||
                     (a.followUps[i].kind == Auto &&
                      (a.followUps[i].capability == "" || a.followUps[i].capability in cfg.capabilities)))
  {
  }
}
