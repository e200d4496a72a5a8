/** How strong the greedy selection is: a table has exactly one perfect matching if and only if its rows can be ordered
    so that every row has a single match left when its turn comes. */
module GreedyOrder {
  import opened Basics
  import opened GreedyMatching

  /** The assignment of every row to a matching column of its own, and there is no other. */
  ghost predicate OnlyMatching(m: Table, rows: nat, f: seq<int>) {
    Respects(m, rows, f) && forall g :: Respects(m, rows, g) ==> g == f
  }

  /** An order of the rows: each listed once. */
  predicate IsOrder(p: seq<int>, n: nat) {
    |p| == n && NoDuplicates(p) && forall i :: 0 <= i < n ==> 0 <= p[i] < n
  }

  /** f read in the order p. */
  function Along(f: seq<int>, p: seq<int>): (r: seq<int>)
    requires forall i :: 0 <= i < |p| ==> 0 <= p[i] < |f|
    ensures |r| == |p| && forall i :: 0 <= i < |p| ==> r[i] == f[p[i]]
  {
    seq(|p|, i requires 0 <= i < |p| => f[p[i]])
  }

  /** The table w is m with its rows in the order p. */
  ghost predicate Reorders(m: Table, p: seq<int>, w: Table) {
    forall i, j :: w(i, j) == if 0 <= i < |p| then m(p[i], j) else None
  }

  // ----- An injective list of rows lists them all -----

  function Below(n: nat): set<int> {
    if n == 0 then {} else Below(n - 1) + {n - 1}
  }

  lemma {:induction false} BelowIs(n: nat)
    ensures |Below(n)| == n && forall i :: i in Below(n) <==> 0 <= i < n
  {
    if n > 0 {
      BelowIs(n - 1);
    }
  }

  lemma SubsetFills<T>(s: set<T>, t: set<T>)
    requires s <= t && |s| == |t|
    ensures s == t
  {
    assert t == s + (t - s) && |t - s| == 0;
  }

  lemma CoversAll(p: seq<int>, n: nat, r: int)
    requires |p| == n && NoDuplicates(p) && (forall i :: 0 <= i < n ==> 0 <= p[i] < n) && 0 <= r < n
    ensures r in p
  {
    UsedCount(p);
    BelowIs(n);
    SubsetFills(Used(p), Below(n));
    assert r in Below(n);
  }

  lemma PlaceIn(p: seq<int>, n: nat, r: int) returns (i: nat)
    requires IsOrder(p, n) && 0 <= r < n
    ensures i < n && p[i] == r
  {
    CoversAll(p, n, r);
    i :| 0 <= i < |p| && p[i] == r;
  }

  // ----- From a unique matching to a row with a single match -----

  lemma Member<T>(a: set<T>) returns (x: T)
    requires a != {}
    ensures x in a
  {
    x :| x in a;
  }

  function Image<T>(s: map<T, T>, a: set<T>): set<T>
    requires a <= s.Keys
  {
    set x | x in a :: s[x]
  }

  lemma ImageHolds<T>(s: map<T, T>, a: set<T>, x: T)
    requires a <= s.Keys && x in a
    ensures s[x] in Image(s, a)
  {
  }

  lemma ImageFrom<T>(s: map<T, T>, a: set<T>, y: T) returns (x: T)
    requires a <= s.Keys && y in Image(s, a)
    ensures x in a && s[x] == y
  {
    x :| x in a && s[x] == y;
  }

  lemma ImageSplit<T>(s: map<T, T>, a: set<T>, x: T)
    requires a <= s.Keys && x in a
    ensures Image(s, a) == Image(s, a - {x}) + {s[x]}
  {
    assert a == (a - {x}) + {x};
  }

  lemma {:induction false} ImageCount<T>(s: map<T, T>, a: set<T>)
    requires a <= s.Keys
    ensures |Image(s, a)| <= |a|
    decreases a
  {
    if a == {} {
      assert Image(s, a) == {};
    } else {
      var x := Member(a);
      ImageSplit(s, a, x);
      ImageCount(s, a - {x});
    }
  }

  /** A map that sends two members to one place has a smaller image. */
  lemma ImageLoses<T>(s: map<T, T>, a: set<T>, x: T, y: T)
    requires a <= s.Keys && x in a && y in a && x != y && s[x] == s[y]
    ensures |Image(s, a)| < |a|
  {
    ImageSplit(s, a, x);
    ImageHolds(s, a - {x}, y);
    assert Image(s, a) == Image(s, a - {x});
    ImageCount(s, a - {x});
  }

  /** A map of a finite set onto itself is one to one. */
  lemma OntoIsOneToOne<T>(s: map<T, T>, a: set<T>, x: T, y: T)
    requires a <= s.Keys && Image(s, a) == a && x in a && y in a && x != y
    ensures s[x] != s[y]
  {
    if s[x] == s[y] {
      ImageLoses(s, a, x, y);
    }
  }

  /** Following a map of a set into itself leads to a part that it maps onto itself. */
  lemma {:induction false} Core<T>(s: map<T, T>, a: set<T>) returns (t: set<T>)
    requires a <= s.Keys && a != {} && Image(s, a) <= a
    ensures t != {} && t <= a && Image(s, t) == t
    decreases a
  {
    var b := Image(s, a);
    if b == a {
      t := a;
    } else {
      var x := Member(a);
      ImageHolds(s, a, x);
      assert Image(s, b) <= b;
      t := Core(s, b);
    }
  }

  /** f with the columns of the rows in t passed along s. */
  function Turned(f: seq<int>, s: map<int, int>, t: set<int>): (g: seq<int>)
    requires t <= s.Keys && forall i :: i in t ==> 0 <= s[i] < |f|
    ensures |g| == |f| && forall i :: 0 <= i < |f| ==> g[i] == if i in t then f[s[i]] else f[i]
  {
    seq(|f|, i requires 0 <= i < |f| => if i in t then f[s[i]] else f[i])
  }

  lemma TurnedApart(f: seq<int>, s: map<int, int>, t: set<int>, i: int, j: int)
    requires NoDuplicates(f) && t <= s.Keys && Image(s, t) == t && (forall r :: r in t ==> 0 <= s[r] < |f|)
    requires 0 <= i < |f| && 0 <= j < |f| && i != j
    ensures Turned(f, s, t)[i] != Turned(f, s, t)[j]
  {
    var i', j' := if i in t then s[i] else i, if j in t then s[j] else j;
    assert i' != j' by {
      if i in t {
        ImageHolds(s, t, i);
      }
      if j in t {
        ImageHolds(s, t, j);
      }
      if i in t && j in t {
        OntoIsOneToOne(s, t, i, j);
      }
    }
    assert f[i'] != f[j'];
  }

  /** Passing columns along such a map gives another matching. */
  lemma TurnedRespects(m: Table, n: nat, f: seq<int>, s: map<int, int>, t: set<int>)
    requires Respects(m, n, f) && t <= s.Keys && Image(s, t) == t
    requires forall r :: r in t ==> 0 <= r < n && 0 <= s[r] < n && Fits(m, r, f[s[r]])
    ensures Respects(m, n, Turned(f, s, t))
  {
    var g := Turned(f, s, t);
    forall i, j | 0 <= i < j < n ensures g[i] != g[j] {
      TurnedApart(f, s, t, i, j);
    }
  }

  /** The columns of some rows are matched by row r only through its own. */
  ghost predicate Alone(m: Table, f: seq<int>, rows: set<int>, r: int)
    requires 0 <= r < |f| && forall x :: x in rows ==> 0 <= x < |f|
  {
    forall x :: x in rows && x != r ==> !Fits(m, r, f[x])
  }

  lemma NotAlone(m: Table, f: seq<int>, rows: set<int>, r: int) returns (x: int)
    requires 0 <= r < |f| && (forall x :: x in rows ==> 0 <= x < |f|) && !Alone(m, f, rows, r)
    ensures x in rows && x != r && Fits(m, r, f[x])
  {
    x :| x in rows && x != r && Fits(m, r, f[x]);
  }

  /** Row r is sent to another of the rows, whose column it matches. */
  predicate Sent(m: Table, f: seq<int>, rows: set<int>, s: map<int, int>, r: int)
    requires forall x :: x in rows ==> 0 <= x < |f|
  {
    r in s && s[r] in rows && s[r] != r && Fits(m, r, f[s[r]])
  }

  /** When no row is alone, each can be sent to another one. */
  lemma {:induction false} SendAll(m: Table, f: seq<int>, rows: set<int>, todo: set<int>) returns (s: map<int, int>)
    requires (forall x :: x in rows ==> 0 <= x < |f|) && todo <= rows
    requires forall r {:trigger Alone(m, f, rows, r)} :: r in rows ==> !Alone(m, f, rows, r)
    ensures s.Keys == todo && forall r {:trigger Sent(m, f, rows, s, r)} :: r in todo ==> Sent(m, f, rows, s, r)
    decreases todo
  {
    if todo == {} {
      s := map[];
    } else {
      var r := Member(todo);
      var rest := SendAll(m, f, rows, todo - {r});
      var x := NotAlone(m, f, rows, r);
      s := rest[r := x];
      forall y | y in todo ensures Sent(m, f, rows, s, y) {
        assert y != r ==> Sent(m, f, rows, rest, y);
      }
    }
  }

  /** Sending rows around gives a second matching. */
  lemma SentAround(m: Table, n: nat, f: seq<int>, rows: set<int>, s: map<int, int>) returns (g: seq<int>)
    requires Respects(m, n, f) && rows != {} && (forall x :: x in rows ==> 0 <= x < n)
    requires s.Keys == rows && forall r {:trigger Sent(m, f, rows, s, r)} :: r in rows ==> Sent(m, f, rows, s, r)
    ensures Respects(m, n, g) && g != f
  {
    forall y | y in Image(s, rows) ensures y in rows {
      var x := ImageFrom(s, rows, y);
      assert Sent(m, f, rows, s, x);
    }
    var t := Core(s, rows);
    forall r | r in t ensures 0 <= r < n && 0 <= s[r] < n && Fits(m, r, f[s[r]]) {
      assert Sent(m, f, rows, s, r);
    }
    TurnedRespects(m, n, f, s, t);
    g := Turned(f, s, t);
    var r := Member(t);
    assert Sent(m, f, rows, s, r);
    assert g[r] == f[s[r]] != f[r];
  }

  /** With only one matching, among any rows there is one that matches none of the other rows' columns. */
  lemma SomeAlone(m: Table, n: nat, f: seq<int>, rows: set<int>)
    requires OnlyMatching(m, n, f) && rows != {} && forall x :: x in rows ==> 0 <= x < n
    ensures exists r :: r in rows && Alone(m, f, rows, r)
  {
    if forall r {:trigger Alone(m, f, rows, r)} :: r in rows ==> !Alone(m, f, rows, r) {
      var s := SendAll(m, f, rows, rows);
      var g := SentAround(m, n, f, rows, s);
    }
  }

  // ----- From there to a triangular order -----

  /** No row of the order matches the column of a later one. */
  ghost predicate Triangular(m: Table, f: seq<int>, p: seq<int>)
    requires forall i :: 0 <= i < |p| ==> 0 <= p[i] < |f|
  {
    forall i, k :: 0 <= i < k < |p| ==> !Fits(m, p[i], f[p[k]])
  }

  lemma {:induction false} OrderOf(m: Table, n: nat, f: seq<int>, rows: set<int>) returns (p: seq<int>)
    requires OnlyMatching(m, n, f) && forall x :: x in rows ==> 0 <= x < n
    ensures |p| == |rows| && NoDuplicates(p) && (forall i :: 0 <= i < |p| ==> p[i] in rows) && Triangular(m, f, p)
    decreases rows
  {
    if rows == {} {
      p := [];
    } else {
      SomeAlone(m, n, f, rows);
      var r :| r in rows && Alone(m, f, rows, r);
      var rest := OrderOf(m, n, f, rows - {r});
      p := [r] + rest;
      forall i, k | 0 <= i < k < |p| ensures p[i] != p[k] && !Fits(m, p[i], f[p[k]]) {
        assert p[k] == rest[k - 1];
        assert i > 0 ==> p[i] == rest[i - 1];
      }
    }
  }

  /** In a triangular order the matching is greedy. */
  lemma TriangularIsGreedy(m: Table, n: nat, f: seq<int>, p: seq<int>, w: Table)
    requires Respects(m, n, f) && Shaped(m, n, n) && IsOrder(p, n) && Triangular(m, f, p) && Reorders(m, p, w)
    ensures Greedy(w, Along(f, p))
  {
    var h := Along(f, p);
    forall i | 0 <= i < |h| ensures Sole(w, i, Used(h[..i]), h[i]) {
      assert w(i, h[i]) == m(p[i], f[p[i]]) && Fits(m, p[i], f[p[i]]);
      forall x | 0 <= x < i ensures h[x] != h[i] {
        assert p[x] != p[i];
      }
      forall l | Fits(w, i, l) && l !in Used(h[..i]) ensures l == h[i] {
        assert w(i, l) == m(p[i], l) && Fits(m, p[i], l);
        LaterOrSame(m, n, f, p, i, l);
      }
    }
  }

  /** A column that a row of a triangular order matches is its own or an earlier row's. */
  lemma LaterOrSame(m: Table, n: nat, f: seq<int>, p: seq<int>, i: nat, l: int)
    requires Respects(m, n, f) && Shaped(m, n, n) && IsOrder(p, n) && Triangular(m, f, p) && i < n && Fits(m, p[i], l)
    ensures l == f[p[i]] || l in Used(Along(f, p)[..i])
  {
    forall x | 0 <= x < n ensures 0 <= f[x] < n {
      assert Fits(m, x, f[x]);
    }
    CoversAll(f, n, l);
    var r :| 0 <= r < |f| && f[r] == l;
    var k := PlaceIn(p, n, r);
    if k < i {
      assert Along(f, p)[..i][k] == l;
    }
  }

  // ----- The theorem -----

  /** The rows can be ordered so that the greedy selection succeeds. */
  ghost predicate Orderable(m: Table, n: nat, p: seq<int>, w: Table, h: seq<int>) {
    IsOrder(p, n) && Reorders(m, p, w) && Success(w, n, n, h)
  }

  lemma AlongRespects(m: Table, n: nat, g: seq<int>, p: seq<int>, w: Table)
    requires Respects(m, n, g) && IsOrder(p, n) && Reorders(m, p, w)
    ensures Respects(w, n, Along(g, p))
  {
    var h := Along(g, p);
    forall i | 0 <= i < |h| ensures Fits(w, i, h[i]) {
      assert w(i, h[i]) == m(p[i], g[p[i]]) && Fits(m, p[i], g[p[i]]);
    }
    forall i, j | 0 <= i < j < |h| ensures h[i] != h[j] {
      assert p[i] != p[j];
    }
  }

  /** Matchings that agree along an order agree. */
  lemma AlongInjective(f: seq<int>, g: seq<int>, p: seq<int>, n: nat)
    requires |f| == |g| == n && IsOrder(p, n) && Along(f, p) == Along(g, p)
    ensures f == g
  {
    forall r | 0 <= r < n ensures f[r] == g[r] {
      var i := PlaceIn(p, n, r);
      assert Along(f, p)[i] == Along(g, p)[i];
    }
  }

  /** If some order succeeds, the matching it finds is the only one. */
  lemma OrderableIsUnique(m: Table, n: nat, p: seq<int>, w: Table, h: seq<int>, f: seq<int>)
    requires Orderable(m, n, p, w, h) && Respects(m, n, f)
    ensures OnlyMatching(m, n, f) && h == Along(f, p)
  {
    forall g | Respects(m, n, g) ensures Along(g, p) == h {
      AlongRespects(m, n, g, p, w);
      GreedyIsUnique(w, h, Along(g, p), n);
      assert Along(g, p)[..n] == Along(g, p) && h[..n] == h;
    }
    forall g | Respects(m, n, g) ensures g == f {
      AlongInjective(f, g, p, n);
    }
  }

  lemma {:induction false} Places(p: seq<int>, n: nat, k: nat) returns (q: seq<int>)
    requires IsOrder(p, n) && k <= n
    ensures |q| == k && forall i :: 0 <= i < k ==> 0 <= q[i] < n && p[q[i]] == i
  {
    if k == 0 {
      q := [];
    } else {
      var before := Places(p, n, k - 1);
      var i := PlaceIn(p, n, k - 1);
      q := before + [i];
    }
  }

  lemma Inverse(p: seq<int>, n: nat) returns (q: seq<int>)
    requires IsOrder(p, n)
    ensures IsOrder(q, n) && forall i :: 0 <= i < n ==> p[q[i]] == i
  {
    q := Places(p, n, n);
    forall i, j | 0 <= i < j < n ensures q[i] != q[j] {
      assert p[q[i]] == i && p[q[j]] == j;
    }
  }

  /** A success in some order is a matching of the table itself, with the same labels. */
  lemma OrderableMatches(m: Table, n: nat, p: seq<int>, w: Table, h: seq<int>) returns (f: seq<int>)
    requires Shaped(m, n, n) && Orderable(m, n, p, w, h)
    ensures OnlyMatching(m, n, f) && exists v :: OneLabel(m, f, v)
  {
    var q := Inverse(p, n);
    GreedyRespects(w, h);
    forall i, j ensures m(i, j) == if 0 <= i < |q| then w(q[i], j) else None {
      if i < 0 || n <= i {
        assert !Fits(m, i, j);
      }
    }
    f := Along(h, q);
    AlongRespects(w, n, h, q, m);
    OrderableIsUnique(m, n, p, w, h, f);
    var v :| OneLabel(w, h, v);
    forall r | 0 <= r < n ensures LabelOf(m, r, f[r]) == v {
      assert LabelOf(w, q[r], h[q[r]]) == v;
    }
    assert OneLabel(m, f, v);
  }

  /** Conversely, with only one matching there is an order in which the greedy selection takes exactly that matching;
      with one label, it succeeds. */
  lemma UniqueIsOrderable(m: Table, n: nat, f: seq<int>, v: string) returns (p: seq<int>)
    requires n > 0 && Shaped(m, n, n) && OnlyMatching(m, n, f) && OneLabel(m, f, v)
    ensures IsOrder(p, n)
    ensures forall w :: Reorders(m, p, w) ==> Orderable(m, n, p, w, Along(f, p))
  {
    BelowIs(n);
    p := OrderOf(m, n, f, Below(n));
    forall w | Reorders(m, p, w) ensures Orderable(m, n, p, w, Along(f, p)) {
      TriangularIsGreedy(m, n, f, p, w);
      GreedySucceeds(m, n, f, v, p, w);
    }
  }

  lemma GreedySucceeds(m: Table, n: nat, f: seq<int>, v: string, p: seq<int>, w: Table)
    requires n > 0 && Shaped(m, n, n) && Respects(m, n, f) && OneLabel(m, f, v)
    requires IsOrder(p, n) && Reorders(m, p, w) && Greedy(w, Along(f, p))
    ensures Success(w, n, n, Along(f, p))
  {
    var h := Along(f, p);
    GreedyRespects(w, h);
    forall i | 0 <= i < n ensures 0 <= h[i] < n && LabelOf(w, i, h[i]) == v {
      assert Fits(m, p[i], f[p[i]]) && LabelOf(m, p[i], f[p[i]]) == v;
    }
    assert OneLabel(w, h, v);
    forall j ensures j in Used(h) <==> 0 <= j < n {
      if 0 <= j < n {
        CoversAll(h, n, j);
      }
    }
  }
}
