/** The ordered view of the live stream: a sorted permutation of the projections, and when it is the same sequence
    whatever order the live map is walked in. */
module AnomalySnapshot {
  import opened Basics
  import opened AnomalyModel
  import opened AnomalyEngine
  import opened AnomalyStore
  import opened TextOrder
  import opened Sorting

  /** Most urgent first, then definition, then subject id. */
  predicate Before(a: Anomaly, b: Anomaly) {
    if Rank(a.severity) != Rank(b.severity) then Rank(a.severity) > Rank(b.severity)
    else if a.defKey != b.defKey then Less(a.defKey, b.defKey)
    else Less(a.subject.id, b.subject.id)
  }

  /** Two views the order cannot tell apart. */
  predicate Tie(a: Anomaly, b: Anomaly) {
    Rank(a.severity) == Rank(b.severity) && a.defKey == b.defKey && a.subject.id == b.subject.id
  }

  lemma BeforeTotal(a: Anomaly, b: Anomaly)
    ensures Tie(a, b) <==> !Before(a, b) && !Before(b, a)
    ensures !(Before(a, b) && Before(b, a))
  {
    LessTotal(a.defKey, b.defKey);
    LessTotal(a.subject.id, b.subject.id);
  }

  lemma NotBeforeTransitive(a: Anomaly, b: Anomaly, c: Anomaly)
    requires !Before(b, a) && !Before(c, b)
    ensures !Before(c, a)
  {
    LessTotal(a.defKey, b.defKey);
    LessTotal(b.defKey, c.defKey);
    LessTotal(a.defKey, c.defKey);
    LessTotal(a.subject.id, b.subject.id);
    LessTotal(b.subject.id, c.subject.id);
    LessTotal(a.subject.id, c.subject.id);
    if Less(a.defKey, b.defKey) && Less(b.defKey, c.defKey) {
      LessTransitive(a.defKey, b.defKey, c.defKey);
    }
    if Less(a.subject.id, b.subject.id) && Less(b.subject.id, c.subject.id) {
      LessTransitive(a.subject.id, b.subject.id, c.subject.id);
    }
  }

  lemma BeforeIsWeakOrder()
    ensures WeakOrder(Before)
  {
    forall a, b | Before(a, b) ensures !Before(b, a) {
      BeforeTotal(a, b);
    }
    forall a, b, c | !Before(b, a) && !Before(c, b) ensures !Before(c, a) {
      NotBeforeTransitive(a, b, c);
    }
  }

  /** The canonical order shared by the live view and the store-backed reads. */
  function SortAnomalies(s: seq<Anomaly>): (r: seq<Anomaly>)
    ensures multiset(r) == multiset(s)
  {
    Sort(Before, s)
  }

  lemma SortAnomaliesSorts(s: seq<Anomaly>)
    ensures Sorted(Before, SortAnomalies(s)) && multiset(SortAnomalies(s)) == multiset(s)
  {
    BeforeIsWeakOrder();
    SortSorts(Before, s);
  }

  // ----- The snapshot -----

  function Projections(cfg: Config, active: Active, order: seq<Key>): seq<Anomaly>
    requires Elems(order) <= active.Keys
  {
    seq(|order|, i requires 0 <= i < |order| => assert order[i] in Elems(order); Project(cfg, active[order[i]]))
  }

  /** A possible snapshot: some sorted arrangement of the projections, collected in some order of the live map. */
  ghost predicate IsSnapshot(cfg: Config, active: Active, view: seq<Anomaly>) {
    && Sorted(Before, view)
    && exists order :: Enumerates(order, active.Keys) && multiset(view) == multiset(Projections(cfg, active, order))
  }

  method Snapshot(e: Engine) returns (view: seq<Anomaly>)
    ensures IsSnapshot(e.cfg, e.active, view)
  {
    var order: seq<Key>, todo := [], e.active.Keys;
    var collected: seq<Anomaly> := [];
    while todo != {}
      invariant todo <= e.active.Keys
      invariant Enumerates(order, e.active.Keys - todo)
      invariant collected == Projections(e.cfg, e.active, order)
      decreases todo
    {
      var k :| k in todo;
      EnumeratesAppend(order, e.active.Keys - todo, k);
      assert e.active.Keys - (todo - {k}) == e.active.Keys - todo + {k};
      collected := collected + [Project(e.cfg, e.active[k])];
      order, todo := order + [k], todo - {k};
    }
    assert e.active.Keys - todo == e.active.Keys;
    view := SortAnomalies(collected);
    SortAnomaliesSorts(collected);
  }

  /** What the order of a snapshot means: of two entries, the earlier one is at least as urgent; at equal rank its
      definition does not come later in the alphabet; and for one definition its subject id does not. */
  lemma SnapshotOrder(cfg: Config, active: Active, view: seq<Anomaly>, i: nat, j: nat)
    requires IsSnapshot(cfg, active, view) && i < j < |view|
    ensures var a, b := view[i], view[j];
            && (a.severity == Critical || b.severity != Critical)
            && (b.severity == Error ==> a.severity in {Critical, Error})
            && (b.severity == Warning ==> a.severity in {Critical, Error, Warning})
            && (b.severity == Info ==> a.severity in {Critical, Error, Warning, Info})
            && (a.severity == b.severity ==> a.defKey == b.defKey || Less(a.defKey, b.defKey))
            && (a.severity == b.severity && a.defKey == b.defKey ==>
                  a.subject.id == b.subject.id || Less(a.subject.id, b.subject.id))
  {
    assert !Before(view[j], view[i]);
    LessTotal(view[i].defKey, view[j].defKey);
    LessTotal(view[i].subject.id, view[j].subject.id);
  }

  // ----- When the snapshot is one sequence -----

  /** Two live instances that differ only in the kind of their subject and rank alike. */
  predicate KindTwins(cfg: Config, active: Active, k: Key, l: Key)
    requires k in active && l in active
  {
    k != l && Tie(Project(cfg, active[k]), Project(cfg, active[l]))
  }

  ghost predicate TieFree(s: seq<Anomaly>) {
    forall i, j :: 0 <= i < |s| && 0 <= j < |s| && Tie(s[i], s[j]) ==> s[i] == s[j]
  }

  lemma IndexOf(s: seq<Anomaly>, a: Anomaly) returns (i: nat)
    requires a in multiset(s)
    ensures i < |s| && s[i] == a
  {
    assert a in s;
    i :| 0 <= i < |s| && s[i] == a;
  }

  lemma SameHead(s: seq<Anomaly>, t: seq<Anomaly>)
    requires Sorted(Before, s) && Sorted(Before, t) && multiset(s) == multiset(t) && TieFree(s) && s != [] && t != []
    ensures s[0] == t[0]
  {
    assert t[0] in multiset(t) && s[0] in multiset(s);
    var i := IndexOf(s, t[0]);
    var j := IndexOf(t, s[0]);
    BeforeTotal(s[0], t[0]);
    assert i > 0 ==> !Before(s[i], s[0]);
    assert j > 0 ==> !Before(t[j], t[0]);
  }

  lemma TailMultiset(s: seq<Anomaly>)
    requires s != []
    ensures multiset(s[1..]) == multiset(s) - multiset{s[0]}
  {
    assert s == [s[0]] + s[1..];
  }

  /** A sorted arrangement is unique when ties are equalities. */
  lemma {:induction false} SortedUnique(s: seq<Anomaly>, t: seq<Anomaly>)
    requires Sorted(Before, s) && Sorted(Before, t) && multiset(s) == multiset(t) && TieFree(s)
    ensures s == t
  {
    assert |s| == |multiset(s)| && |t| == |multiset(t)|;
    if s != [] {
      SameHead(s, t);
      TailMultiset(s);
      TailMultiset(t);
      SortedUnique(s[1..], t[1..]);
      assert s == [s[0]] + s[1..] && t == [t[0]] + t[1..];
    }
  }

  /** The projection determines the key, so projections of different live instances differ. */
  lemma ProjectionKey(cfg: Config, active: Active, k: Key)
    requires WellFormed(cfg.catalog) && Coherent(cfg, active) && k in active
    ensures var a := Project(cfg, active[k]); Key(a.defKey, a.subject.kind, a.subject.id) == k
  {
  }

  lemma {:induction false} NoDuplicatesMultiset(s: seq<Anomaly>)
    requires NoDuplicates(s)
    ensures multiset(s) == multiset(Elems(s))
  {
    if s == [] {
      assert Elems(s) == {};
    } else {
      var init, x := s[..|s| - 1], s[|s| - 1];
      assert s == init + [x];
      NoDuplicatesMultiset(init);
      ElemsAppend(init, x);
      assert x !in init;
      assert multiset(Elems(init) + {x}) == multiset(Elems(init)) + multiset{x};
    }
  }

  function Views(cfg: Config, active: Active): set<Anomaly> {
    set k | k in active :: Project(cfg, active[k])
  }

  lemma ProjectionsDistinct(cfg: Config, active: Active, order: seq<Key>)
    requires WellFormed(cfg.catalog) && Coherent(cfg, active) && Enumerates(order, active.Keys)
    ensures NoDuplicates(Projections(cfg, active, order))
  {
    var ps := Projections(cfg, active, order);
    forall i, j | 0 <= i < j < |ps| ensures ps[i] != ps[j] {
      assert order[i] in Elems(order) && order[j] in Elems(order);
      ProjectionKey(cfg, active, order[i]);
      ProjectionKey(cfg, active, order[j]);
    }
  }

  lemma ProjectionsCover(cfg: Config, active: Active, order: seq<Key>, a: Anomaly)
    requires Enumerates(order, active.Keys)
    ensures a in Projections(cfg, active, order) <==> a in Views(cfg, active)
  {
    var ps := Projections(cfg, active, order);
    if a in Views(cfg, active) {
      var k :| k in active && Project(cfg, active[k]) == a;
      assert k in Elems(order);
      var i :| 0 <= i < |order| && order[i] == k;
      assert ps[i] == a;
    }
    if a in ps {
      var i :| 0 <= i < |ps| && ps[i] == a;
      assert order[i] in Elems(order);
    }
  }

  /** Whatever order the live map is walked in, the same projections are collected, each once. */
  lemma ProjectionsAreViews(cfg: Config, active: Active, order: seq<Key>)
    requires WellFormed(cfg.catalog) && Coherent(cfg, active) && Enumerates(order, active.Keys)
    ensures multiset(Projections(cfg, active, order)) == multiset(Views(cfg, active))
  {
    var ps := Projections(cfg, active, order);
    ProjectionsDistinct(cfg, active, order);
    NoDuplicatesMultiset(ps);
    forall a ensures a in Elems(ps) <==> a in Views(cfg, active) {
      ProjectionsCover(cfg, active, order, a);
    }
    assert Elems(ps) == Views(cfg, active);
  }

  lemma ViewsTieFree(cfg: Config, active: Active, view: seq<Anomaly>)
    requires WellFormed(cfg.catalog) && Coherent(cfg, active)
    requires multiset(view) == multiset(Views(cfg, active))
    requires forall k, l :: k in active && l in active ==> !KindTwins(cfg, active, k, l)
    ensures TieFree(view)
  {
    forall i, j | 0 <= i < |view| && 0 <= j < |view| && Tie(view[i], view[j]) ensures view[i] == view[j] {
      assert view[i] in multiset(view) && view[j] in multiset(view);
      assert view[i] in Views(cfg, active) && view[j] in Views(cfg, active);
      var k :| k in active && Project(cfg, active[k]) == view[i];
      var l :| l in active && Project(cfg, active[l]) == view[j];
      assert !KindTwins(cfg, active, k, l);
    }
  }

  /** Without kind twins the snapshot is the same sequence for every iteration order and every sort. */
  lemma SnapshotDetermined(cfg: Config, active: Active, s: seq<Anomaly>, t: seq<Anomaly>)
    requires WellFormed(cfg.catalog) && Coherent(cfg, active)
    requires forall k, l :: k in active && l in active ==> !KindTwins(cfg, active, k, l)
    requires IsSnapshot(cfg, active, s) && IsSnapshot(cfg, active, t)
    ensures s == t
  {
    var o :| Enumerates(o, active.Keys) && multiset(s) == multiset(Projections(cfg, active, o));
    var p :| Enumerates(p, active.Keys) && multiset(t) == multiset(Projections(cfg, active, p));
    ProjectionsAreViews(cfg, active, o);
    ProjectionsAreViews(cfg, active, p);
    ViewsTieFree(cfg, active, s);
    SortedUnique(s, t);
  }

  function Swap(s: seq<Anomaly>, i: nat, j: nat): (r: seq<Anomaly>)
    requires i < |s| && j < |s|
    ensures multiset(r) == multiset(s)
  {
    s[i := s[j]][j := s[i]]
  }

  /** Ties can be exchanged: the result is just as sorted. */
  lemma SwapTie(s: seq<Anomaly>, i: nat, j: nat)
    requires Sorted(Before, s) && i < j < |s| && Tie(s[i], s[j])
    ensures Sorted(Before, Swap(s, i, j))
  {
    var r := Swap(s, i, j);
    forall x, y | 0 <= x < y < |r| ensures !Before(r[y], r[x]) {
      assert Rank(r[i].severity) == Rank(s[i].severity) && Rank(r[j].severity) == Rank(s[j].severity);
      SameBefore(s[i], s[j], r[x]);
      SameBefore(s[i], s[j], r[y]);
      SameBefore(s[i], s[j], s[x]);
      SameBefore(s[i], s[j], s[y]);
      assert !Before(s[y], s[x]);
    }
  }

  lemma SameBefore(a: Anomaly, b: Anomaly, x: Anomaly)
    requires Tie(a, b)
    ensures Before(a, x) <==> Before(b, x)
    ensures Before(x, a) <==> Before(x, b)
  {
  }

  /** With kind twins there are two different snapshots of the same live set. */
  lemma KindTwinsUndetermined(cfg: Config, e: Active, order: seq<Key>, k: Key, l: Key)
    returns (s: seq<Anomaly>, t: seq<Anomaly>)
    requires WellFormed(cfg.catalog) && Coherent(cfg, e) && Enumerates(order, e.Keys)
    requires k in e && l in e && KindTwins(cfg, e, k, l)
    ensures IsSnapshot(cfg, e, s) && IsSnapshot(cfg, e, t) && s != t
  {
    var ps := Projections(cfg, e, order);
    s := SortAnomalies(ps);
    SortAnomaliesSorts(ps);
    ProjectionsAreViews(cfg, e, order);
    ProjectionKey(cfg, e, k);
    ProjectionKey(cfg, e, l);
    var a, b := Project(cfg, e[k]), Project(cfg, e[l]);
    assert a in Views(cfg, e) && b in Views(cfg, e);
    var i := IndexOf(s, a);
    var j := IndexOf(s, b);
    t := SwapTies(s, i, j);
  }

  lemma SwapTies(s: seq<Anomaly>, i: nat, j: nat) returns (t: seq<Anomaly>)
    requires Sorted(Before, s) && i < |s| && j < |s| && Tie(s[i], s[j]) && s[i] != s[j]
    ensures Sorted(Before, t) && multiset(t) == multiset(s) && t != s
  {
    if i < j {
      SwapTie(s, i, j);
    } else {
      SwapTie(s, j, i);
    }
    t := if i < j then Swap(s, i, j) else Swap(s, j, i);
    assert t[i] == s[j];
  }
}
