/** Reachability in directed graphs over names. */
module Graphs {

  type Edges = (string, string) -> bool

  predicate IsPath(e: Edges, p: seq<string>) {
    p != [] && forall i :: 0 <= i < |p| - 1 ==> e(p[i], p[i + 1])
  }

  predicate Leads(e: Edges, roots: set<string>, p: seq<string>, n: string) {
    IsPath(e, p) && p[0] in roots && p[|p| - 1] == n
  }

  /** n can be reached from one of the roots along edges. */
  ghost predicate Reaches(e: Edges, roots: set<string>, n: string) {
    exists p :: Leads(e, roots, p, n)
  }

  /** No edge leaves s. */
  ghost predicate Closed(e: Edges, s: set<string>) {
    forall a, b :: a in s && e(a, b) ==> b in s
  }

  lemma ReachesRoot(e: Edges, roots: set<string>, n: string)
    requires n in roots
    ensures Reaches(e, roots, n)
  {
    assert Leads(e, roots, [n], n);
  }

  lemma ReachesNext(e: Edges, roots: set<string>, a: string, b: string)
    requires Reaches(e, roots, a) && e(a, b)
    ensures Reaches(e, roots, b)
  {
    var p :| Leads(e, roots, p, a);
    var q := p + [b];
    forall i | 0 <= i < |q| - 1 ensures e(q[i], q[i + 1]) {
      assert i < |p| - 1 ==> e(p[i], p[i + 1]);
    }
    assert Leads(e, roots, q, b);
  }

  lemma {:induction false} PathStaysInside(e: Edges, s: set<string>, p: seq<string>)
    requires Closed(e, s) && IsPath(e, p) && p[0] in s
    ensures p[|p| - 1] in s
  {
    if |p| > 1 {
      var init := p[..|p| - 1];
      PathStaysInside(e, s, init);
      assert e(p[|p| - 2], p[|p| - 1]) && init[|init| - 1] == p[|p| - 2];
    }
  }

  /** Whatever is closed and holds the roots holds everything reachable from them. */
  lemma ClosedCovers(e: Edges, roots: set<string>, s: set<string>, n: string)
    requires Closed(e, s) && roots <= s && Reaches(e, roots, n)
    ensures n in s
  {
    var p :| Leads(e, roots, p, n);
    PathStaysInside(e, s, p);
  }

  /** A set that is closed, holds the roots and holds nothing unreachable is exactly what is reachable. */
  lemma ExactlyReachable(e: Edges, roots: set<string>, s: set<string>)
    requires Closed(e, s) && roots <= s && forall n :: n in s ==> Reaches(e, roots, n)
    ensures forall n :: n in s <==> Reaches(e, roots, n)
  {
    forall n | Reaches(e, roots, n) ensures n in s {
      ClosedCovers(e, roots, s, n);
    }
  }

  /** Reachability through more edges, from nodes reached through fewer, is reachability through more edges. */
  lemma ReachesInTwoPhases(few: Edges, many: Edges, roots: set<string>, middle: set<string>, n: string)
    requires forall a, b :: few(a, b) ==> many(a, b)
    requires forall m :: m in middle <==> Reaches(few, roots, m)
    ensures Reaches(many, middle, n) <==> Reaches(many, roots, n)
  {
    if p :| Leads(many, roots, p, n) {
      ReachesRoot(few, roots, p[0]);
      assert Leads(many, middle, p, n);
    }
    if p :| Leads(many, middle, p, n) {
      var q :| Leads(few, roots, q, p[0]);
      var r := q + p[1..];
      forall i | 0 <= i < |r| - 1 ensures many(r[i], r[i + 1]) {
        assert i < |q| - 1 ==> few(q[i], q[i + 1]);
        assert i >= |q| - 1 ==> many(p[i - |q| + 1], p[i - |q| + 2]);
      }
      assert Leads(many, roots, r, n);
    }
  }
}
