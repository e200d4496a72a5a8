/** The release gate: every entry of the frozen manifest must resolve to exactly one built artifact. A greedy loop
    finds the matching; its success implies that the matching is a bijection and the only one. */
module ReleaseAssets {
  import opened Basics
  import opened Text
  import opened GreedyMatching
  import opened GreedyOrder

  const PLACEHOLDER := "{version}"

  datatype PrimaryAsset = PrimaryAsset(
    id: string, kind: string, goos: string, goarch: string, format: string, nameTemplate: string)

  datatype Artifact = Artifact(
    name: string, kind: string, goos: string, goarch: string, checksum: string, format: string, id: string)

  // ----- One entry against one artifact -----

  function FormatFromName(name: string): string {
    if HasSuffix(name, ".tar.gz") then "tar.gz"
    else if HasSuffix(name, ".zip") then "zip"
    else if HasSuffix(name, ".deb") then "deb"
    else if HasSuffix(name, ".rpm") then "rpm"
    else ""
  }

  function FormatOf(a: Artifact): string {
    var format := TrimPrefix(a.format, ".");
    if format == "" then FormatFromName(a.name) else format
  }

  /** The template around its first placeholder; without one it is all prefix. */
  function Prefix(e: PrimaryAsset): string {
    if Find(e.nameTemplate, PLACEHOLDER) <= |e.nameTemplate| then Before(e.nameTemplate, PLACEHOLDER) else e.nameTemplate
  }

  function Suffix(e: PrimaryAsset): string {
    if Find(e.nameTemplate, PLACEHOLDER) <= |e.nameTemplate| then After(e.nameTemplate, PLACEHOLDER) else ""
  }

  /** The kind, platform, format and id of an artifact are those of an entry. */
  predicate SameIdentity(e: PrimaryAsset, a: Artifact) {
    e.kind == a.kind && e.goos == a.goos && e.goarch == a.goarch && e.id == a.id && e.format == FormatOf(a)
  }

  /** The version an artifact would have under an entry, if it matches it at all. */
  function Matches(e: PrimaryAsset, a: Artifact): Option<string> {
    if !SameIdentity(e, a) then None
    else if !HasPrefix(a.name, Prefix(e)) || !HasSuffix(a.name, Suffix(e)) then None
    else
      var version := TrimSuffix(TrimPrefix(a.name, Prefix(e)), Suffix(e));
      if version == "" || '/' in version || '\\' in version then None else Some(version)
  }

  /** A matched name is the template with the version filled in exactly when it is long enough to hold prefix and
      suffix side by side; on a shorter name they overlap. */
  lemma NameIsFilledTemplate(e: PrimaryAsset, a: Artifact)
    requires Matches(e, a).Some?
    ensures a.name == Prefix(e) + Matches(e, a).value + Suffix(e) <==> |a.name| >= |Prefix(e)| + |Suffix(e)|
  {
    TrimBoth(a.name, Prefix(e), Suffix(e));
  }

  // ----- Entries and artifacts that differ only in name -----

  function Entry(template: string): PrimaryAsset {
    PrimaryAsset("cli", "Archive", "linux", "amd64", "zip", template)
  }

  function Built(name: string): Artifact {
    Artifact(name, "Archive", "linux", "amd64", "", "zip", "cli")
  }

  lemma EntryParts(e: PrimaryAsset, prefix: string, suffix: string)
    requires e.nameTemplate == prefix + PLACEHOLDER + suffix && '{' !in prefix
    ensures Prefix(e) == prefix && Suffix(e) == suffix
  {
    CutAt(prefix, PLACEHOLDER, suffix);
  }

  lemma FormatIsZip(a: Artifact)
    requires a.format == "zip"
    ensures FormatOf(a) == "zip"
  {
    assert "zip"[0] != '.' && !HasPrefix("zip", ".");
  }

  /** Trimming once more what a name holds between prefix and suffix gives the version, if it is one. */
  lemma VersionOf(e: PrimaryAsset, a: Artifact, prefix: string, suffix: string, version: string)
    requires SameIdentity(e, a) && e.nameTemplate == prefix + PLACEHOLDER + suffix && '{' !in prefix
    requires HasPrefix(a.name, prefix) && HasSuffix(a.name, suffix)
    requires TrimSuffix(a.name[|prefix|..], suffix) == version && version != "" && '/' !in version && '\\' !in version
    ensures Matches(e, a) == Some(version)
  {
    EntryParts(e, prefix, suffix);
  }

  /** What matching means: for a template with a first placeholder between p and x, an artifact matches under version v
      exactly when kind, platform, id and format are the entry's, v is not empty and holds no path separator, and the name
      is p, v, x. On a name too short for p and x side by side, it is p and v, and ends with x nevertheless. */
  lemma MatchesExactly(e: PrimaryAsset, a: Artifact, p: string, x: string, v: string)
    requires e.nameTemplate == p + "{version}" + x
    requires forall j :: 0 <= j < |p| ==> !("{version}" <= e.nameTemplate[j..])
    ensures Matches(e, a) == Some(v) <==>
            && e.kind == a.kind && e.goos == a.goos && e.goarch == a.goarch && e.id == a.id && e.format == FormatOf(a)
            && v != "" && '/' !in v && '\\' !in v
            && if |a.name| >= |p| + |x| then a.name == p + v + x
               else a.name == p + v && |x| <= |a.name| && a.name[|a.name| - |x|..] == x
  {
    FirstPlaceholder(e, p, x);
    if |a.name| >= |p| + |x| {
      BetweenExactly(a.name, p, x, v);
    } else {
      OverlapExactly(a.name, p, x, v);
    }
  }

  lemma FirstPlaceholder(e: PrimaryAsset, p: string, x: string)
    requires e.nameTemplate == p + "{version}" + x
    requires forall j :: 0 <= j < |p| ==> !("{version}" <= e.nameTemplate[j..])
    ensures Prefix(e) == p && Suffix(e) == x
  {
    var s := e.nameTemplate;
    assert s[|p|..] == PLACEHOLDER + x;
    FindIsFirst(s, PLACEHOLDER, |p|);
    assert Find(s, PLACEHOLDER) == |p|;
  }

  /** A declared format counts without its leading dot. */
  lemma FormatDeclared(a: Artifact, f: string)
    requires f != "" && (a.format == "." + f || (a.format == f && f[0] != '.'))
    ensures FormatOf(a) == f
  {
  }

  lemma EndsUnlike(s: string, x: string, y: string)
    requires x != "" && y != "" && x[|x| - 1] != y[|y| - 1]
    ensures !(HasSuffix(s, x) && HasSuffix(s, y))
  {
  }

  /** Without one, the name's ending tells: the four known endings, and nothing else. */
  lemma FormatByName(a: Artifact)
    requires a.format == "" || a.format == "."
    ensures FormatOf(a) == "tar.gz" <==> HasSuffix(a.name, ".tar.gz")
    ensures FormatOf(a) == "zip" <==> HasSuffix(a.name, ".zip")
    ensures FormatOf(a) == "deb" <==> HasSuffix(a.name, ".deb")
    ensures FormatOf(a) == "rpm" <==> HasSuffix(a.name, ".rpm")
    ensures FormatOf(a) in {"", "tar.gz", "zip", "deb", "rpm"}
  {
    EndsUnlike(a.name, ".tar.gz", ".zip");
    EndsUnlike(a.name, ".tar.gz", ".deb");
    EndsUnlike(a.name, ".tar.gz", ".rpm");
    EndsUnlike(a.name, ".zip", ".deb");
    EndsUnlike(a.name, ".zip", ".rpm");
    EndsUnlike(a.name, ".deb", ".rpm");
  }

  /** On a short name prefix and suffix overlap: this name matches, but it is not the template filled with the version
      it matches under. */
  lemma OverlapMatches()
    ensures var e, a := Entry("ab{version}bc"), Built("abc");
            Matches(e, a) == Some("c") && a.name != Prefix(e) + "c" + Suffix(e)
  {
    var e, a := Entry("ab{version}bc"), Built("abc");
    assert "ab{version}bc" == "ab" + PLACEHOLDER + "bc";
    FormatIsZip(a);
    assert "abc"[2..] == "c" && "abc"[1..] == "bc";
    VersionOf(e, a, "ab", "bc", "c");
    EntryParts(e, "ab", "bc");
    assert |Prefix(e) + "c" + Suffix(e)| == 5;
  }

  // ----- The matching -----

  predicate IsPrimary(a: Artifact) {
    a.kind == "Archive" || a.kind == "Linux Package"
  }

  function Primaries(catalog: seq<Artifact>): seq<Artifact> {
    if catalog == [] then []
    else
      var before, last := Primaries(catalog[..|catalog| - 1]), catalog[|catalog| - 1];
      if IsPrimary(last) then before + [last] else before
  }

  /** The primary artifacts are the archives and the Linux packages of the catalog, each as often as it is listed. */
  lemma {:induction false} PrimariesExactly(catalog: seq<Artifact>, a: Artifact)
    ensures multiset(Primaries(catalog))[a] ==
            if a.kind in {"Archive", "Linux Package"} then multiset(catalog)[a] else 0
  {
    if catalog != [] {
      var n := |catalog| - 1;
      PrimariesExactly(catalog[..n], a);
      assert catalog == catalog[..n] + [catalog[n]];
    }
  }

  /** The table of matches: manifest entries against primary artifacts, labelled by version. */
  function MatchTable(entries: seq<PrimaryAsset>, primary: seq<Artifact>): Table {
    (i, j) => if 0 <= i < |entries| && 0 <= j < |primary| then Matches(entries[i], primary[j]) else None
  }

  function Picked(primary: seq<Artifact>, f: seq<int>): seq<Artifact>
    requires forall i :: 0 <= i < |f| ==> 0 <= f[i] < |primary|
  {
    seq(|f|, i requires 0 <= i < |f| => primary[f[i]])
  }

  /** A successful assignment of this manifest to these artifacts. */
  ghost predicate Assigns(entries: seq<PrimaryAsset>, primary: seq<Artifact>, f: seq<int>) {
    Success(MatchTable(entries, primary), |entries|, |primary|, f)
  }

  lemma TableShape(entries: seq<PrimaryAsset>, primary: seq<Artifact>)
    ensures Shaped(MatchTable(entries, primary), |entries|, |primary|)
  {
  }

  lemma AssignsInRange(entries: seq<PrimaryAsset>, primary: seq<Artifact>, f: seq<int>)
    requires Assigns(entries, primary, f)
    ensures forall i :: 0 <= i < |f| ==> 0 <= f[i] < |primary|
  {
    forall i | 0 <= i < |f| ensures 0 <= f[i] < |primary| {
      assert f[i] in Used(f);
    }
  }

  datatype Selection = Selected(covered: seq<Artifact>) | SelectionFailed

  /** The artifacts of a successful assignment, in manifest order. */
  ghost predicate Covers(entries: seq<PrimaryAsset>, primary: seq<Artifact>, f: seq<int>, covered: seq<Artifact>) {
    Assigns(entries, primary, f) && (forall i :: 0 <= i < |f| ==> 0 <= f[i] < |primary|) && covered == Picked(primary, f)
  }

  /** The selection succeeds exactly when a successful assignment exists, and returns its artifacts in manifest
      order. */
  method SelectPrimaryAssets(entries: seq<PrimaryAsset>, catalog: seq<Artifact>) returns (r: Selection)
    ensures r.Selected? <==> exists f :: Assigns(entries, Primaries(catalog), f)
    ensures r.Selected? ==> exists f :: Covers(entries, Primaries(catalog), f, r.covered)
  {
    var primary: seq<Artifact> := [];
    assert catalog[..|catalog|] == catalog;
    for i := 0 to |catalog|
      invariant primary == Primaries(catalog[..i])
    {
      assert catalog[..i + 1][..i] == catalog[..i];
      if IsPrimary(catalog[i]) {
        primary := primary + [catalog[i]];
      }
    }
    TableShape(entries, primary);
    var ok, f := Select(MatchTable(entries, primary), |entries|, |primary|);
    if !ok {
      return SelectionFailed;
    }
    assert Assigns(entries, primary, f);
    AssignsInRange(entries, primary, f);
    r := Selected(Picked(primary, f));
    assert Covers(entries, primary, f, r.covered);
  }

  // ----- What a successful selection means -----

  /** Every entry matches its artifact under version v. */
  ghost predicate AllOneVersion(entries: seq<PrimaryAsset>, primary: seq<Artifact>, f: seq<int>, v: string) {
    |f| == |entries| &&
    forall i :: 0 <= i < |f| ==> 0 <= f[i] < |primary| && Matches(entries[i], primary[f[i]]) == Some(v)
  }

  lemma LabelsAreVersions(entries: seq<PrimaryAsset>, primary: seq<Artifact>, f: seq<int>, v: string)
    requires Respects(MatchTable(entries, primary), |entries|, f)
    ensures OneLabel(MatchTable(entries, primary), f, v) <==> AllOneVersion(entries, primary, f, v)
  {
    var m := MatchTable(entries, primary);
    forall i | 0 <= i < |f|
      ensures LabelOf(m, i, f[i]) == v <==> 0 <= f[i] < |primary| && Matches(entries[i], primary[f[i]]) == Some(v)
    {
      assert Fits(m, i, f[i]);
    }
  }

  /** Manifest entries and primary artifacts correspond one to one, all under the same version, and no other
      injective assignment of entries to matching artifacts exists. */
  lemma SelectionIsTheOnlyMatching(entries: seq<PrimaryAsset>, primary: seq<Artifact>, f: seq<int>)
    requires Assigns(entries, primary, f)
    ensures |entries| == |primary| && NoDuplicates(f) && (forall j :: 0 <= j < |primary| ==> j in f)
    ensures exists v :: AllOneVersion(entries, primary, f, v)
    ensures forall g :: Respects(MatchTable(entries, primary), |entries|, g) ==> g == f
  {
    var m := MatchTable(entries, primary);
    SuccessIsBijection(m, |entries|, |primary|, f);
    var v :| OneLabel(m, f, v);
    LabelsAreVersions(entries, primary, f, v);
    forall g | Respects(m, |entries|, g) ensures g == f {
      GreedyIsUnique(m, f, g, |f|);
      assert g[..|f|] == g && f[..|f|] == f;
    }
  }

  // ----- The order of the manifest matters -----

  function Opening(prefix: string): PrimaryAsset {
    Entry(prefix + PLACEHOLDER)
  }

  lemma BuiltMatches(prefix: string, name: string)
    requires '{' !in prefix
    ensures Matches(Opening(prefix), Built(name)) ==
            if prefix <= name && name[|prefix|..] != "" && '/' !in name[|prefix|..] && '\\' !in name[|prefix|..]
            then Some(name[|prefix|..]) else None
  {
    assert prefix + PLACEHOLDER + "" == prefix + PLACEHOLDER;
    EntryParts(Opening(prefix), prefix, "");
    FormatIsZip(Built(name));
    assert HasSuffix(name, "");
    if prefix <= name {
      var version := name[|prefix|..];
      assert TrimSuffix(version, "") == version;
    }
  }

  /** The manifest with its entries in the order p. */
  function Rearranged(entries: seq<PrimaryAsset>, p: seq<int>): seq<PrimaryAsset>
    requires IsOrder(p, |entries|)
  {
    seq(|p|, i requires 0 <= i < |p| => entries[p[i]])
  }

  /** The selection succeeds on the manifest in the order p. */
  ghost predicate SucceedsIn(entries: seq<PrimaryAsset>, primary: seq<Artifact>, p: seq<int>, h: seq<int>) {
    IsOrder(p, |entries|) && Assigns(Rearranged(entries, p), primary, h)
  }

  /** The release as its manifest means it: one way to assign the entries to artifacts of their own, under one
      version. */
  ghost predicate OneRelease(entries: seq<PrimaryAsset>, primary: seq<Artifact>, f: seq<int>) {
    OnlyMatching(MatchTable(entries, primary), |entries|, f) && exists v :: AllOneVersion(entries, primary, f, v)
  }

  lemma RearrangedTable(entries: seq<PrimaryAsset>, primary: seq<Artifact>, p: seq<int>)
    requires IsOrder(p, |entries|)
    ensures Reorders(MatchTable(entries, primary), p, MatchTable(Rearranged(entries, p), primary))
  {
  }

  lemma SuccessIsOneRelease(entries: seq<PrimaryAsset>, primary: seq<Artifact>, p: seq<int>, h: seq<int>)
    requires SucceedsIn(entries, primary, p, h)
    ensures entries != [] && |entries| == |primary| && exists f :: OneRelease(entries, primary, f)
  {
    var m, w, n := MatchTable(entries, primary), MatchTable(Rearranged(entries, p), primary), |entries|;
    SuccessIsBijection(w, n, |primary|, h);
    RearrangedTable(entries, primary, p);
    TableShape(entries, primary);
    var f := OrderableMatches(m, n, p, w, h);
    var v :| OneLabel(m, f, v);
    LabelsAreVersions(entries, primary, f, v);
    assert OneRelease(entries, primary, f);
  }

  lemma OneReleaseSucceeds(entries: seq<PrimaryAsset>, primary: seq<Artifact>, f: seq<int>)
    requires entries != [] && |entries| == |primary| && OneRelease(entries, primary, f)
    ensures exists p, h :: SucceedsIn(entries, primary, p, h)
  {
    var m, n := MatchTable(entries, primary), |entries|;
    TableShape(entries, primary);
    var v :| AllOneVersion(entries, primary, f, v);
    LabelsAreVersions(entries, primary, f, v);
    var p := UniqueIsOrderable(m, n, f, v);
    RearrangedTable(entries, primary, p);
    assert Orderable(m, n, p, MatchTable(Rearranged(entries, p), primary), Along(f, p));
    assert SucceedsIn(entries, primary, p, Along(f, p));
  }

  /** How far the selection depends on the order of the manifest: some order of the entries makes it succeed exactly
      when there are as many artifacts as entries, at least one, and exactly one way to assign them, under one
      version. */
  lemma SomeOrderSucceeds(entries: seq<PrimaryAsset>, primary: seq<Artifact>)
    ensures (exists p, h :: SucceedsIn(entries, primary, p, h)) <==>
            entries != [] && |entries| == |primary| && exists f :: OneRelease(entries, primary, f)
  {
    if p, h :| SucceedsIn(entries, primary, p, h) {
      SuccessIsOneRelease(entries, primary, p, h);
    }
    if entries != [] && |entries| == |primary| {
      if f :| OneRelease(entries, primary, f) {
        OneReleaseSucceeds(entries, primary, f);
      }
    }
  }

  /** A unique matching is not enough: where one entry's template also matches the artifact of a later, more specific
      entry, the selection fails, and with the two entries exchanged it succeeds. */
  lemma OrderMatters()
    ensures var primary := [Built("ab1"), Built("a1")];
            && Respects(MatchTable([Opening("a"), Opening("ab")], primary), 2, [1, 0])
            && (forall g :: Respects(MatchTable([Opening("a"), Opening("ab")], primary), 2, g) ==> g == [1, 0])
            && (forall f :: !Assigns([Opening("a"), Opening("ab")], primary, f))
            && Assigns([Opening("ab"), Opening("a")], primary, [0, 1])
  {
    var primary := [Built("ab1"), Built("a1")];
    var m, w := MatchTable([Opening("a"), Opening("ab")], primary), MatchTable([Opening("ab"), Opening("a")], primary);
    TableOfTwo(Opening("a"), Opening("ab"), Built("ab1"), Built("a1"));
    TableOfTwo(Opening("ab"), Opening("a"), Built("ab1"), Built("a1"));
    FourMatches();
    ShapeOfTwo(m);
    TwoByTwoStuck(m);
    TwoByTwoGreedy(w, "1");
  }

  lemma TableOfTwo(e0: PrimaryAsset, e1: PrimaryAsset, a0: Artifact, a1: Artifact)
    ensures var m := MatchTable([e0, e1], [a0, a1]);
            && m(0, 0) == Matches(e0, a0) && m(0, 1) == Matches(e0, a1)
            && m(1, 0) == Matches(e1, a0) && m(1, 1) == Matches(e1, a1)
            && forall i, j :: OnlyTwoByTwo(m, i, j)
  {
  }

  lemma FourMatches()
    ensures Matches(Opening("a"), Built("ab1")) == Some("b1") && Matches(Opening("a"), Built("a1")) == Some("1")
    ensures Matches(Opening("ab"), Built("ab1")) == Some("1") && Matches(Opening("ab"), Built("a1")) == None
  {
    ShortTemplateMatches();
    LongTemplateMatches();
  }

  lemma ShortTemplateMatches()
    ensures Matches(Opening("a"), Built("ab1")) == Some("b1") && Matches(Opening("a"), Built("a1")) == Some("1")
  {
    BuiltMatches("a", "ab1");
    BuiltMatches("a", "a1");
    assert "ab1"[1..] == "b1" && "a1"[1..] == "1";
  }

  lemma LongTemplateMatches()
    ensures Matches(Opening("ab"), Built("ab1")) == Some("1") && Matches(Opening("ab"), Built("a1")) == None
  {
    BuiltMatches("ab", "ab1");
    BuiltMatches("ab", "a1");
    assert "ab1"[2..] == "1" && "a1"[1] != "ab"[1];
  }

  predicate OnlyTwoByTwo(m: Table, i: int, j: int) {
    Fits(m, i, j) ==> 0 <= i < 2 && 0 <= j < 2
  }

  lemma ShapeOfTwo(m: Table)
    requires forall i, j :: OnlyTwoByTwo(m, i, j)
    requires Fits(m, 0, 0) && Fits(m, 0, 1) && Fits(m, 1, 0) && !Fits(m, 1, 1)
    ensures Respects(m, 2, [1, 0])
    ensures forall g :: Respects(m, 2, g) ==> g == [1, 0]
  {
    forall g | Respects(m, 2, g) ensures g == [1, 0] {
      assert OnlyTwoByTwo(m, 0, g[0]) && OnlyTwoByTwo(m, 1, g[1]);
      assert Fits(m, 0, g[0]) && Fits(m, 1, g[1]);
    }
  }

  lemma TwoByTwoStuck(m: Table)
    requires Fits(m, 0, 0) && Fits(m, 0, 1)
    ensures forall f :: !Success(m, 2, 2, f)
  {
    forall j ensures !Sole(m, 0, Used([]), j) {
      assert 0 !in Used([]) && 1 !in Used([]);
    }
    StuckIsStuck(m, []);
  }

  lemma TwoByTwoGreedy(w: Table, v: string)
    requires forall i, j :: OnlyTwoByTwo(w, i, j)
    requires w(0, 0) == Some(v) && !Fits(w, 0, 1) && w(1, 1) == Some(v)
    ensures Success(w, 2, 2, [0, 1])
  {
    assert forall l :: Fits(w, 0, l) ==> OnlyTwoByTwo(w, 0, l);
    assert forall l :: Fits(w, 1, l) ==> OnlyTwoByTwo(w, 1, l);
    var f := [0, 1];
    assert f[..0] == [] && f[..1] == [0];
    assert Sole(w, 0, Used(f[..0]), 0);
    assert Sole(w, 1, Used(f[..1]), 1);
    assert OneLabel(w, f, v);
  }

  /** Two entries that match their own artifacts under one version, the first of them no other. */
  lemma TwoAssigned(e0: PrimaryAsset, e1: PrimaryAsset, a0: Artifact, a1: Artifact, v: string)
    requires Matches(e0, a0) == Some(v) && Matches(e0, a1) == None && Matches(e1, a1) == Some(v)
    ensures Covers([e0, e1], [a0, a1], [0, 1], [a0, a1])
  {
    TableOfTwo(e0, e1, a0, a1);
    TwoByTwoGreedy(MatchTable([e0, e1], [a0, a1]), v);
    assert Picked([a0, a1], [0, 1]) == [a0, a1];
  }
}
