/** Trace semantics of the engine: after any run, an instance is a summary of the sightings of its own key since
    that key was last cleared, whatever happened to other keys in between. */
module AnomalyTrace {
  import opened AnomalyModel
  import opened AnomalyEngine

  datatype Event = Seen(d: Detection, at: Time) | Pruned(source: string, cutoff: Time) | Recovered(subject: SubjectRef)

  function Apply(cfg: Config, active: Active, e: Event): Active {
    match e
    case Seen(d, at) => Fold(cfg, active, d, at)
    case Pruned(source, cutoff) => active - Idle(active, source, cutoff)
    case Recovered(subject) => active - AboutSubject(active, subject)
  }

  function Run(cfg: Config, active: Active, trace: seq<Event>): Active {
    if trace == [] then active
    else Apply(cfg, Run(cfg, active, trace[..|trace| - 1]), trace[|trace| - 1])
  }

  // ----- The independent description: sightings of one key since its last clear -----

  datatype Sighting = Sighting(d: Detection, at: Time)

  /** The latest time among some sightings. */
  function Latest(h: seq<Sighting>): (r: Time)
    requires h != []
    ensures exists i :: 0 <= i < |h| && r == h[i].at
    ensures forall i :: 0 <= i < |h| ==> h[i].at <= r
  {
    var last := h[|h| - 1].at;
    if |h| == 1 then last
    else
      var m := Latest(h[..|h| - 1]);
      assert forall i :: 0 <= i < |h| - 1 ==> h[i] == h[..|h| - 1][i];
      if last > m then last else m
  }

  /** The sightings of key k that a trace leaves: every accepted detection of k, dropped whenever k's subject
      recovers or k's source is pruned at a cutoff later than all of them. */
  function Sightings(cfg: Config, trace: seq<Event>, k: Key): seq<Sighting> {
    if trace == [] then []
    else Extend(cfg, Sightings(cfg, trace[..|trace| - 1], k), trace[|trace| - 1], k)
  }

  function Extend(cfg: Config, h: seq<Sighting>, e: Event, k: Key): seq<Sighting> {
    match e
    case Seen(d, at) => if Accepted(cfg, d) && KeyOf(d) == k then h + [Sighting(d, at)] else h
    case Pruned(source, cutoff) =>
      if h != [] && h[|h| - 1].d.source == source && Latest(h) < cutoff then [] else h
    case Recovered(subject) => if subject == SubjectRef(k.kind, k.id) then [] else h
  }

  /** What the engine must hold for a non-empty list of sightings. */
  function Summary(cfg: Config, h: seq<Sighting>): Tracked
    requires h != []
  {
    var last := h[|h| - 1].d;
    Tracked(last, BaseSeverity(cfg, last), h[0].at, Latest(h), |h|)
  }

  /** How a key's live instance stands for its sightings. */
  ghost predicate Tracks(cfg: Config, active: Active, k: Key, h: seq<Sighting>) {
    (k in active <==> h != []) && (h != [] ==> active[k] == Summary(cfg, h))
  }

  lemma TracksStep(cfg: Config, active: Active, k: Key, h: seq<Sighting>, e: Event)
    requires Tracks(cfg, active, k, h)
    ensures Tracks(cfg, Apply(cfg, active, e), k, Extend(cfg, h, e, k))
  {
    match e
    case Seen(d, at) =>
      if Accepted(cfg, d) && KeyOf(d) == k {
        var g := h + [Sighting(d, at)];
        assert g[..|g| - 1] == h;
      }
    case Pruned(source, cutoff) =>
    case Recovered(subject) =>
  }

  /** Trace refinement: after every run from an empty engine, a key is live exactly when it has sightings since its
      last clear, and then its count is their number, firstSeen the time of the first, lastSeen the latest time,
      and its detection and base severity those of the last. */
  lemma {:induction false} TraceRefinement(cfg: Config, trace: seq<Event>, k: Key)
    ensures Tracks(cfg, Run(cfg, map[], trace), k, Sightings(cfg, trace, k))
  {
    if trace != [] {
      var init := trace[..|trace| - 1];
      TraceRefinement(cfg, init, k);
      TracksStep(cfg, Run(cfg, map[], init), k, Sightings(cfg, init, k), trace[|trace| - 1]);
    }
  }

  /** The events that can matter to key k. */
  predicate Concerns(cfg: Config, e: Event, k: Key) {
    match e
    case Seen(d, _) => Accepted(cfg, d) && KeyOf(d) == k
    case Pruned(_, _) => true
    case Recovered(subject) => subject == SubjectRef(k.kind, k.id)
  }

  function OwnEvents(cfg: Config, trace: seq<Event>, k: Key): seq<Event> {
    if trace == [] then []
    else
      var own, e := OwnEvents(cfg, trace[..|trace| - 1], k), trace[|trace| - 1];
      if Concerns(cfg, e, k) then own + [e] else own
  }

  lemma {:induction false} SightingsOfOwnEvents(cfg: Config, trace: seq<Event>, k: Key)
    ensures Sightings(cfg, OwnEvents(cfg, trace, k), k) == Sightings(cfg, trace, k)
  {
    if trace != [] {
      var own, e := OwnEvents(cfg, trace[..|trace| - 1], k), trace[|trace| - 1];
      SightingsOfOwnEvents(cfg, trace[..|trace| - 1], k);
      if Concerns(cfg, e, k) {
        assert (own + [e])[..|own|] == own;
      }
    }
  }

  /** No cross-talk: dropping every event about other keys, and every rejected detection, leaves k's instance
      exactly as it was. */
  lemma OwnEventsSuffice(cfg: Config, trace: seq<Event>, k: Key)
    ensures var whole, own := Run(cfg, map[], trace), Run(cfg, map[], OwnEvents(cfg, trace, k));
            (k in whole <==> k in own) && (k in whole ==> whole[k] == own[k])
  {
    SightingsOfOwnEvents(cfg, trace, k);
    TraceRefinement(cfg, trace, k);
    TraceRefinement(cfg, OwnEvents(cfg, trace, k), k);
  }

  /** Observations of different keys commute, whatever is live. */
  lemma ObservationsCommute(cfg: Config, active: Active, d: Detection, at: Time, e: Detection, bt: Time)
    requires KeyOf(d) != KeyOf(e)
    ensures Fold(cfg, Fold(cfg, active, d, at), e, bt) == Fold(cfg, Fold(cfg, active, e, bt), d, at)
  {
    var left, right := Fold(cfg, Fold(cfg, active, d, at), e, bt), Fold(cfg, Fold(cfg, active, e, bt), d, at);
    assert left.Keys == right.Keys;
  }

  /** firstSeen is the earliest time since the last clear exactly when no sighting since then is older than the first. */
  lemma FirstSeenEarliestExactly(cfg: Config, trace: seq<Event>, k: Key)
    requires k in Run(cfg, map[], trace)
    ensures var h, t := Sightings(cfg, trace, k), Run(cfg, map[], trace)[k];
            && h != []
            && ((forall i :: 0 <= i < |h| ==> t.firstSeen <= h[i].at) <==> !exists i :: 0 < i < |h| && h[i].at < h[0].at)
  {
    TraceRefinement(cfg, trace, k);
  }

  /** firstSeen is the time of the first fold, not the earliest time: a late-arriving older sighting does not
      move it. */
  lemma FirstSeenIsNotEarliest(cfg: Config, d: Detection)
    requires Accepted(cfg, d)
    ensures var t := Run(cfg, map[], [Seen(d, 10), Seen(d, 5)])[KeyOf(d)];
            t.firstSeen == 10 && t.lastSeen == 10 && t.count == 2
  {
    var trace := [Seen(d, 10), Seen(d, 5)];
    assert trace[..1] == [Seen(d, 10)] && trace[..1][..0] == [];
    assert Run(cfg, map[], trace[..1]) == Fold(cfg, map[], d, 10);
  }

  lemma {:induction false} RunAppend(cfg: Config, active: Active, trace: seq<Event>, more: seq<Event>)
    ensures Run(cfg, active, trace + more) == Run(cfg, Run(cfg, active, trace), more)
  {
    if more == [] {
      assert trace + more == trace;
    } else {
      var init := more[..|more| - 1];
      RunAppend(cfg, active, trace, init);
      assert (trace + more)[..|trace + more| - 1] == trace + init;
    }
  }

  lemma {:induction false} RunCoherent(cfg: Config, active: Active, trace: seq<Event>)
    requires Coherent(cfg, active)
    ensures Coherent(cfg, Run(cfg, active, trace))
  {
    if trace != [] {
      var init := trace[..|trace| - 1];
      RunCoherent(cfg, active, init);
      match trace[|trace| - 1]
      case Seen(d, at) => FoldCoherent(cfg, Run(cfg, active, init), d, at);
      case Pruned(_, _) =>
      case Recovered(_) =>
    }
  }
}
