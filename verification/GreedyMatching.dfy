/** Greedy assignment over a table of matches: each row takes its only match among the columns not yet taken. */
module GreedyMatching {
  import opened Basics

  /** For a row and a column, the label they match with, if they match. */
  type Table = (int, int) -> Option<string>

  predicate Fits(m: Table, i: int, j: int) {
    m(i, j).Some?
  }

  function LabelOf(m: Table, i: int, j: int): string {
    if m(i, j).Some? then m(i, j).value else ""
  }

  /** The table has these many rows and columns. */
  ghost predicate Shaped(m: Table, rows: nat, columns: nat) {
    forall i, j :: Fits(m, i, j) ==> 0 <= i < rows && 0 <= j < columns
  }

  /** j is the only column outside used that matches row i. */
  ghost predicate Sole(m: Table, i: int, used: set<int>, j: int) {
    Fits(m, i, j) && j !in used && forall l :: Fits(m, i, l) && l !in used ==> l == j
  }

  function Used(f: seq<int>): set<int> {
    set j | j in f
  }

  /** An assignment of the first rows, each to its only match among the columns not yet taken. */
  ghost predicate Greedy(m: Table, f: seq<int>) {
    forall i :: 0 <= i < |f| ==> Sole(m, i, Used(f[..i]), f[i])
  }

  ghost predicate OneLabel(m: Table, f: seq<int>, v: string) {
    forall i :: 0 <= i < |f| ==> LabelOf(m, i, f[i]) == v
  }

  /** All rows are assigned, no column is left over, and all matches carry one label. */
  ghost predicate Success(m: Table, rows: nat, columns: nat, f: seq<int>) {
    && rows > 0 && |f| == rows && Greedy(m, f)
    && (forall j :: j in Used(f) <==> 0 <= j < columns)
    && exists v :: OneLabel(m, f, v)
  }

  lemma UsedAppend(f: seq<int>, j: int)
    ensures Used(f + [j]) == Used(f) + {j}
  {
  }

  lemma GreedyAppend(m: Table, f: seq<int>, j: int)
    requires Greedy(m, f) && Sole(m, |f|, Used(f), j)
    ensures Greedy(m, f + [j])
  {
    var g := f + [j];
    forall i | 0 <= i < |g| ensures Sole(m, i, Used(g[..i]), g[i]) {
      assert g[..i] == f[..i];
      assert f[..|f|] == f;
    }
  }

  lemma GreedyPrefix(m: Table, f: seq<int>, n: nat)
    requires Greedy(m, f) && n <= |f|
    ensures Greedy(m, f[..n])
  {
    forall i | 0 <= i < n ensures Sole(m, i, Used(f[..n][..i]), f[..n][i]) {
      assert f[..n][..i] == f[..i];
    }
  }

  lemma NextIsSole(m: Table, g: seq<int>, n: nat)
    requires Greedy(m, g) && n < |g|
    ensures Sole(m, n, Used(g[..n]), g[n])
  {
  }

  /** Greedy choice leaves no freedom: two greedy assignments agree as far as both go. */
  lemma {:induction false} GreedyDetermined(m: Table, f: seq<int>, g: seq<int>)
    requires Greedy(m, f) && Greedy(m, g) && |f| <= |g|
    ensures f == g[..|f|]
    decreases |f|
  {
    if f != [] {
      var n := |f| - 1;
      GreedyPrefix(m, f, n);
      GreedyDetermined(m, f[..n], g);
      NextIsSole(m, f, n);
      NextIsSole(m, g, n);
      assert f == f[..n] + [f[n]] && g[..|f|] == g[..n] + [g[n]];
    }
  }

  /** When no column is left as the only match of the next row, no greedy assignment goes further. */
  lemma StuckIsStuck(m: Table, f: seq<int>)
    requires Greedy(m, f) && forall j :: !Sole(m, |f|, Used(f), j)
    ensures forall g :: Greedy(m, g) ==> |g| <= |f|
  {
    forall g | Greedy(m, g) ensures |g| <= |f| {
      if |g| > |f| {
        GreedyDetermined(m, f, g);
        NextIsSole(m, g, |f|);
      }
    }
  }

  lemma SuccessDetermined(m: Table, rows: nat, columns: nat, f: seq<int>)
    requires Greedy(m, f) && |f| == rows
    ensures forall g :: Success(m, rows, columns, g) ==> g == f
  {
    forall g | Success(m, rows, columns, g) ensures g == f {
      GreedyDetermined(m, f, g);
      assert g[..|g|] == g;
    }
  }

  // ----- Labels -----

  function Labels(m: Table, f: seq<int>): set<string> {
    if f == [] then {} else Labels(m, f[..|f| - 1]) + {LabelOf(m, |f| - 1, f[|f| - 1])}
  }

  lemma LabelsAppend(m: Table, f: seq<int>, j: int)
    ensures Labels(m, f + [j]) == Labels(m, f) + {LabelOf(m, |f|, j)}
  {
    assert (f + [j])[..|f|] == f;
  }

  lemma {:induction false} LabelsMember(m: Table, f: seq<int>, v: string)
    ensures v in Labels(m, f) <==> exists i :: 0 <= i < |f| && LabelOf(m, i, f[i]) == v
  {
    if f != [] {
      var init := f[..|f| - 1];
      LabelsMember(m, init, v);
      if i :| 0 <= i < |f| && LabelOf(m, i, f[i]) == v {
        assert i < |init| ==> LabelOf(m, i, init[i]) == v;
      }
      if i :| 0 <= i < |init| && LabelOf(m, i, init[i]) == v {
        assert LabelOf(m, i, f[i]) == v;
      }
    }
  }

  lemma SingleLabel(m: Table, f: seq<int>)
    ensures |Labels(m, f)| == 1 <==> f != [] && exists v :: OneLabel(m, f, v)
  {
    var vs := Labels(m, f);
    if |vs| == 1 {
      var v :| v in vs;
      assert |vs - {v}| == 0;
      assert vs == {v};
      forall i | 0 <= i < |f| ensures LabelOf(m, i, f[i]) == v {
        LabelsMember(m, f, LabelOf(m, i, f[i]));
      }
      assert OneLabel(m, f, v);
    }
    if f != [] {
      if v :| OneLabel(m, f, v) {
        forall w ensures w in vs <==> w == v {
          LabelsMember(m, f, w);
          assert LabelOf(m, 0, f[0]) == v;
        }
        assert vs == {v};
      }
    }
  }

  // ----- The loops -----

  datatype Match = Found(index: int, version: string) | Multiple | Missing

  function Taken(matched: seq<bool>): set<int> {
    set j | 0 <= j < |matched| && matched[j]
  }

  lemma TakeOne(matched: seq<bool>, j: int)
    requires 0 <= j < |matched|
    ensures Taken(matched[j := true]) == Taken(matched) + {j}
  {
  }

  /** Finds the only column not yet matched that matches row n, or says that there is none or more than one. */
  method FindMatch(m: Table, ghost rows: nat, n: int, matched: array<bool>, ghost taken: set<int>) returns (r: Match)
    requires Shaped(m, rows, matched.Length) && taken == Taken(matched[..])
    ensures r.Found? ==> Sole(m, n, taken, r.index) && 0 <= r.index < matched.Length && m(n, r.index) == Some(r.version)
    ensures !r.Found? ==> forall j :: !Sole(m, n, taken, j)
  {
    var candidate, version := -1, "";
    for index := 0 to matched.Length
      invariant candidate == -1 || (0 <= candidate < index && candidate !in taken && m(n, candidate) == Some(version))
      invariant forall l :: 0 <= l < index && l !in taken && Fits(m, n, l) ==> l == candidate
    {
      if matched[index] {
        assert index in taken;
        continue;
      }
      var found := m(n, index);
      if found == None {
        continue;
      }
      if candidate != -1 {
        assert Fits(m, n, candidate) && Fits(m, n, index) && index !in taken;
        return Multiple;
      }
      candidate, version := index, found.value;
    }
    if candidate == -1 {
      return Missing;
    }
    r := Found(candidate, version);
  }

  /** Every row takes its only free match, or the loop stops because there is none. */
  method MatchAll(m: Table, rows: nat, matched: array<bool>) returns (ok: bool, f: seq<int>, versions: set<string>)
    requires Shaped(m, rows, matched.Length) && forall j :: 0 <= j < matched.Length ==> !matched[j]
    modifies matched
    ensures Greedy(m, f) && versions == Labels(m, f) && Taken(matched[..]) == Used(f)
    ensures ok ==> |f| == rows
    ensures !ok ==> forall g :: Greedy(m, g) ==> |g| < rows
  {
    f, versions := [], {};
    for n := 0 to rows
      invariant |f| == n && Greedy(m, f) && versions == Labels(m, f)
      invariant Taken(matched[..]) == Used(f)
    {
      var found := FindMatch(m, rows, n, matched, Used(f));
      if !found.Found? {
        StuckIsStuck(m, f);
        ok := false;
        return;
      }
      GreedyAppend(m, f, found.index);
      LabelsAppend(m, f, found.index);
      UsedAppend(f, found.index);
      TakeOne(matched[..], found.index);
      matched[found.index] := true;
      versions := versions + {found.version};
      f := f + [found.index];
    }
    ok := true;
  }

  lemma GreedyInShape(m: Table, rows: nat, columns: nat, g: seq<int>)
    requires Shaped(m, rows, columns) && Greedy(m, g)
    ensures forall j :: j in Used(g) ==> 0 <= j < columns
  {
    forall j | j in Used(g) ensures 0 <= j < columns {
      var i :| 0 <= i < |g| && g[i] == j;
      NextIsSole(m, g, i);
    }
  }

  /** The whole selection: it succeeds exactly when a successful assignment exists, and returns that assignment. */
  method Select(m: Table, rows: nat, columns: nat) returns (ok: bool, f: seq<int>)
    requires Shaped(m, rows, columns)
    ensures ok <==> exists g :: Success(m, rows, columns, g)
    ensures ok ==> Success(m, rows, columns, f)
  {
    var matched := new bool[columns](_ => false);
    var all, g, versions := MatchAll(m, rows, matched);
    if !all {
      assert forall h :: Success(m, rows, columns, h) ==> Greedy(m, h);
      return false, [];
    }
    SuccessDetermined(m, rows, columns, g);
    for j := 0 to columns
      invariant forall l :: 0 <= l < j ==> l in Taken(matched[..])
    {
      if !matched[j] {
        assert j !in Used(g);
        assert !Success(m, rows, columns, g);
        return false, [];
      }
    }
    SingleLabel(m, g);
    if |versions| != 1 {
      assert !Success(m, rows, columns, g);
      return false, [];
    }
    GreedyInShape(m, rows, columns, g);
    ok, f := true, g;
    assert Success(m, rows, columns, f);
  }

  // ----- What success means -----

  /** An assignment of every row to a matching column of its own. */
  predicate Respects(m: Table, rows: nat, g: seq<int>) {
    |g| == rows && NoDuplicates(g) && forall i :: 0 <= i < |g| ==> Fits(m, i, g[i])
  }

  lemma GreedyRespects(m: Table, f: seq<int>)
    requires Greedy(m, f)
    ensures Respects(m, |f|, f)
  {
    forall i, j | 0 <= i < j < |f| ensures f[i] != f[j] {
      assert f[..j][i] == f[i];
      NextIsSole(m, f, j);
    }
    forall i | 0 <= i < |f| ensures Fits(m, i, f[i]) {
      NextIsSole(m, f, i);
    }
  }

  lemma {:induction false} UsedCount(f: seq<int>)
    requires NoDuplicates(f)
    ensures |Used(f)| == |f|
  {
    if f == [] {
      assert Used(f) == {};
    } else {
      var init, last := f[..|f| - 1], f[|f| - 1];
      UsedCount(init);
      assert f == init + [last];
      UsedAppend(init, last);
    }
  }

  /** A successful assignment is a bijection between rows and columns. */
  lemma SuccessIsBijection(m: Table, rows: nat, columns: nat, f: seq<int>)
    requires Success(m, rows, columns, f)
    ensures Respects(m, rows, f) && rows == columns
    ensures forall j :: 0 <= j < columns ==> j in f
  {
    GreedyRespects(m, f);
    UsedCount(f);
    var all := seq(columns, i => i);
    UsedCount(all);
    forall j ensures j in Used(all) <==> 0 <= j < columns {
      assert 0 <= j < columns ==> all[j] == j;
    }
    assert Used(f) == Used(all);
    forall j | 0 <= j < columns ensures j in f {
      assert j in Used(f);
    }
  }

  /** It is the only assignment of rows to matching columns of their own. */
  lemma {:induction false} GreedyIsUnique(m: Table, f: seq<int>, g: seq<int>, n: nat)
    requires Greedy(m, f) && Respects(m, |f|, g) && n <= |f|
    ensures g[..n] == f[..n]
  {
    if n > 0 {
      var i := n - 1;
      GreedyIsUnique(m, f, g, i);
      NextIsSole(m, f, i);
      assert g[i] !in g[..i];
      assert Fits(m, i, g[i]);
      assert g[..n] == g[..i] + [g[i]] && f[..n] == f[..i] + [f[i]];
    }
  }
}
