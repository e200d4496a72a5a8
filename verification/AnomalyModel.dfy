/** The vocabulary of the anomaly engine: severities, detections, catalog entries, the projected view of a
    live instance, and the persistence id of an instance. */
module AnomalyModel {

  /** Instants are integers (nanoseconds); callers of the engine always pass the time in. */
  type Time = int

  /** A severity as it travels in a detection: absent, one of the four known levels, or some other text. */
  datatype Severity = Unset | Info | Warning | Error | Critical | Unknown(name: string)

  function Rank(s: Severity): (r: nat)
    ensures r > 0 <==> s in {Info, Warning, Error, Critical}
  {
    match s
    case Critical => 4
    case Error => 3
    case Warning => 2
    case Info => 1
    case _ => 0
  }

  predicate Valid(s: Severity) {
    Rank(s) > 0
  }

  /** One step up the ladder, capped at critical; an unknown severity stays where it is. */
  function Bump(s: Severity): (r: Severity)
    ensures Valid(s) ==> Rank(r) == if s == Critical then 4 else Rank(s) + 1
    ensures r == s <==> s == Critical || !Valid(s)
  {
    match s
    case Info => Warning
    case Warning => Error
    case Error => Critical
    case _ => s
  }

  datatype SubjectRef = SubjectRef(kind: string, id: string)

  datatype Detection = Detection(
    defKey: string, subject: SubjectRef, severity: Severity, evidence: map<string, string>, source: string)

  /** The identity a detection coalesces into: one live instance per anomaly type and subject. */
  datatype Key = Key(def: string, kind: string, id: string)

  function KeyOf(d: Detection): Key {
    Key(d.defKey, d.subject.kind, d.subject.id)
  }

  datatype FollowUpKind = Auto | Prompt | OtherKind(name: string)

  datatype FollowUp = FollowUp(kind: FollowUpKind, title: string, action: string, capability: string)

  datatype Def = Def(
    id: string, category: string, defaultSeverity: Severity, standards: seq<string>, title: string,
    description: string, impact: string, recommendation: string, followUps: seq<FollowUp>)

  type Catalog = map<string, Def>

  const CATEGORIES: set<string> :=
    {"security", "rf", "roaming", "capacity", "standards", "authorization", "nethealth"}

  predicate ValidFollowUp(f: FollowUp) {
    f.kind in {Auto, Prompt} && f.title != ""
  }

  predicate ValidDef(d: Def) {
    && d.id != "" && d.title != "" && d.description != "" && d.recommendation != ""
    && d.category in CATEGORIES
    && Valid(d.defaultSeverity)
    && forall i :: 0 <= i < |d.followUps| ==> ValidFollowUp(d.followUps[i])
  }

  /** A definition is refused exactly when one of its required texts is empty, its category or its default severity is
      unknown, or a follow-up has an unknown kind or no title. */
  lemma InvalidExactly(d: Def)
    ensures !ValidDef(d) <==>
            || "" in [d.id, d.title, d.description, d.recommendation]
            || d.category !in ["security", "rf", "roaming", "capacity", "standards", "authorization", "nethealth"]
            || d.defaultSeverity.Unset? || d.defaultSeverity.Unknown?
            || exists f :: f in d.followUps && (f.kind.OtherKind? || f.title == "")
  {
    if f :| f in d.followUps && (f.kind.OtherKind? || f.title == "") {
      var i :| 0 <= i < |d.followUps| && d.followUps[i] == f;
    }
  }

  /** What catalog construction establishes: every definition is valid and indexed by its own id. */
  ghost predicate WellFormed(catalog: Catalog) {
    forall id :: id in catalog ==> catalog[id].id == id && ValidDef(catalog[id])
  }

  /** The zero definition that a lookup of a missing id yields. */
  const ZERO_DEF := Def("", "", Unset, [], "", "", "", "", [])

  function Lookup(catalog: Catalog, id: string): Def {
    if id in catalog then catalog[id] else ZERO_DEF
  }

  datatype CatalogResult = Indexed(catalog: Catalog) | Rejected

  /** Catalog construction: it succeeds exactly on valid definitions with distinct ids, and then it indexes
      each of them under its own id and holds nothing else. */
  method NewCatalog(defs: seq<Def>) returns (r: CatalogResult)
    ensures r.Indexed? <==>
            && (forall i :: 0 <= i < |defs| ==> ValidDef(defs[i]))
            && (forall i, j :: 0 <= i < j < |defs| ==> defs[i].id != defs[j].id)
    ensures r.Indexed? ==> WellFormed(r.catalog)
    ensures r.Indexed? ==> forall i :: 0 <= i < |defs| ==>
            defs[i].id in r.catalog && r.catalog[defs[i].id] == defs[i]
    ensures r.Indexed? ==> forall id :: id in r.catalog ==> r.catalog[id] in defs
  {
    var catalog: Catalog := map[];
    for n := 0 to |defs|
      invariant forall i :: 0 <= i < n ==> ValidDef(defs[i])
      invariant forall i, j :: 0 <= i < j < n ==> defs[i].id != defs[j].id
      invariant WellFormed(catalog)
      invariant forall i :: 0 <= i < n ==> defs[i].id in catalog && catalog[defs[i].id] == defs[i]
      invariant forall id :: id in catalog ==> catalog[id] in defs[..n]
    {
      if !ValidDef(defs[n]) || defs[n].id in catalog {
        return Rejected;
      }
      catalog := catalog[defs[n].id := defs[n]];
    }
    r := Indexed(catalog);
  }

  /** The projected view of a live instance: catalog copy merged with evidence and lifecycle. */
  datatype Anomaly = Anomaly(
    defKey: string, category: string, severity: Severity, subject: SubjectRef, title: string,
    description: string, impact: string, recommendation: string, standards: seq<string>,
    evidence: map<string, string>, followUps: seq<FollowUp>, firstSeen: Time, lastSeen: Time, count: int)

  /** The persisted view: the projection plus a stable id and the producing source. */
  datatype Record = Record(id: string, source: string, anomaly: Anomaly)

  function RecordId(def: string, subject: SubjectRef): string {
    def + "|" + subject.kind + "|" + subject.id
  }

  function IdOf(k: Key): string {
    RecordId(k.def, SubjectRef(k.kind, k.id))
  }

  predicate PipeFree(s: string) {
    '|' !in s
  }

  /** Keys whose persistence id can be split back: no separator in the definition id or the subject kind. */
  predicate Encodable(k: Key) {
    PipeFree(k.def) && PipeFree(k.kind)
  }

  lemma SplitAtFirstPipe(a: string, x: string, b: string, y: string)
    requires PipeFree(a) && PipeFree(b)
    requires a + "|" + x == b + "|" + y
    ensures a == b && x == y
  {
    var s, t := a + "|" + x, b + "|" + y;
    assert s[|a|] == '|' && t[|b|] == '|';
    assert forall i :: 0 <= i < |a| ==> s[i] == a[i];
    assert forall i :: 0 <= i < |b| ==> t[i] == b[i];
    assert |a| == |b|;
    assert a == s[..|a|] && b == t[..|b|];
    assert x == s[|a| + 1..] && y == t[|b| + 1..];
  }

  /** The persistence id is the engine's own key: distinct encodable keys never share a row. */
  lemma IdInjective(k: Key, l: Key)
    requires Encodable(k) && Encodable(l)
    requires IdOf(k) == IdOf(l)
    ensures k == l
  {
    assert IdOf(k) == k.def + "|" + (k.kind + "|" + k.id);
    assert IdOf(l) == l.def + "|" + (l.kind + "|" + l.id);
    SplitAtFirstPipe(k.def, k.kind + "|" + k.id, l.def, l.kind + "|" + l.id);
    SplitAtFirstPipe(k.kind, k.id, l.kind, l.id);
  }

  /** The place of the first separator; without one, the length. */
  function FirstPipe(s: string): (n: nat)
    ensures n <= |s| && (forall i :: 0 <= i < n ==> s[i] != '|') && (n < |s| ==> s[n] == '|')
    ensures n == |s| <==> PipeFree(s)
  {
    if s == "" || s[0] == '|' then 0
    else
      FirstPipe(s[1..]) + 1
  }

  /** The key an id splits into at its first two separators. */
  function KeyFrom(id: string): Key {
    var n := FirstPipe(id);
    if n == |id| then Key(id, "", "")
    else
      var rest := id[n + 1..];
      var m := FirstPipe(rest);
      if m == |rest| then Key(id[..n], rest, "") else Key(id[..n], rest[..m], rest[m + 1..])
  }

  lemma SplitRejoins(s: string, n: nat)
    requires n < |s| && s[n] == '|'
    ensures s == s[..n] + "|" + s[n + 1..]
  {
  }

  /** An id with two separators splits at the first of them and the next one. */
  lemma KeyFromParts(id: string, i: nat, j: nat)
    requires i < j < |id| && id[i] == '|' && id[j] == '|'
    ensures var k := KeyFrom(id); Encodable(k) && id == k.def + "|" + (k.kind + "|" + k.id)
  {
    var n := FirstPipe(id);
    var rest := id[n + 1..];
    assert rest[j - n - 1] == '|';
    SplitRejoins(id, n);
    SplitRejoins(rest, FirstPipe(rest));
  }

  lemma JoinParts(k: Key)
    ensures IdOf(k) == k.def + "|" + (k.kind + "|" + k.id)
  {
  }

  lemma PipesOfId(k: Key)
    ensures var id, i, j := IdOf(k), |k.def|, |k.def| + 1 + |k.kind|; j < |id| && id[i] == '|' && id[j] == '|'
  {
  }

  /** Every record id splits into a key of that id, whatever key it was made from. */
  lemma KeyFromId(k: Key)
    ensures Encodable(KeyFrom(IdOf(k))) && IdOf(KeyFrom(IdOf(k))) == IdOf(k)
  {
    PipesOfId(k);
    KeyFromParts(IdOf(k), |k.def|, |k.def| + 1 + |k.kind|);
    JoinParts(KeyFrom(IdOf(k)));
  }

  /** Splitting gives back the key exactly when neither of its first two components holds the separator; so those are
      exactly the keys that share their record id with no other key of that form. */
  lemma IdUniqueExactly(k: Key)
    ensures KeyFrom(IdOf(k)) == k <==> Encodable(k)
    ensures Encodable(k) <==> forall l :: Encodable(l) && IdOf(l) == IdOf(k) ==> l == k
  {
    KeyFromId(k);
    if Encodable(k) {
      IdInjective(KeyFrom(IdOf(k)), k);
      forall l | Encodable(l) && IdOf(l) == IdOf(k) ensures l == k {
        IdInjective(l, k);
      }
    }
  }

  /** For example, these three different keys share one row. */
  lemma IdCollision()
    ensures IdOf(Key("a|b", "c", "d")) == IdOf(Key("a", "b|c", "d"))
    ensures IdOf(Key("a", "b|c", "d")) == IdOf(Key("a", "b", "c|d"))
  {
    assert IdOf(Key("a|b", "c", "d")) == "a|b|c|d";
    assert IdOf(Key("a", "b|c", "d")) == "a|b|c|d";
    assert IdOf(Key("a", "b", "c|d")) == "a|b|c|d";
  }
}
