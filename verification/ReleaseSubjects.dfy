/** Checksums of the release: coverage of the selected artifacts, and the subjects file written for provenance, which
    must read back as exactly what was verified. */
module ReleaseSubjects {
  import opened Basics
  import opened Text
  import opened Sorting
  import TextOrder
  import opened ReleaseAssets

  datatype Subject = Subject(name: string, checksum: string)

  // ----- Lines, fields, digests -----

  predicate NoSpace(s: string) {
    forall i :: 0 <= i < |s| ==> !IsSpace(s[i])
  }

  /** A non-empty run of characters without white space. */
  predicate IsWord(s: string) {
    s != "" && NoSpace(s)
  }

  function WordEnd(s: string): (n: nat)
    ensures n <= |s| && NoSpace(s[..n]) && (n < |s| ==> IsSpace(s[n]))
    ensures s != "" && !IsSpace(s[0]) ==> n > 0
  {
    if s == "" || IsSpace(s[0]) then 0
    else
      var n := WordEnd(s[1..]);
      assert s[..n + 1] == [s[0]] + s[1..][..n];
      n + 1
  }

  /** The maximal words of a line. */
  function Fields(s: string): seq<string>
    decreases |s|
  {
    if s == "" then []
    else if IsSpace(s[0]) then Fields(s[1..])
    else [s[..WordEnd(s)]] + Fields(s[WordEnd(s)..])
  }

  /** Words are all that fields ever returns. */
  lemma {:induction false} FieldsAreWords(s: string, i: nat)
    requires i < |Fields(s)|
    ensures IsWord(Fields(s)[i])
    decreases |s|
  {
    if IsSpace(s[0]) {
      FieldsAreWords(s[1..], i);
    } else if i > 0 {
      FieldsAreWords(s[WordEnd(s)..], i - 1);
    }
  }

  lemma WordEndAt(w: string, rest: string)
    requires IsWord(w) && (rest == "" || IsSpace(rest[0]))
    ensures WordEnd(w + rest) == |w|
  {
    var s := w + rest;
    var n := WordEnd(s);
    assert forall i :: 0 <= i < |w| ==> s[i] == w[i];
    assert rest != "" ==> s[|w|] == rest[0];
    assert forall i :: 0 <= i < n ==> s[..n][i] == s[i];
  }

  lemma FieldsOfWord(w: string, rest: string)
    requires IsWord(w) && (rest == "" || IsSpace(rest[0]))
    ensures Fields(w + rest) == [w] + Fields(rest)
  {
    WordEndAt(w, rest);
    assert (w + rest)[0] == w[0];
    assert (w + rest)[..|w|] == w && (w + rest)[|w|..] == rest;
  }

  lemma FieldsOfTwo(a: string, b: string)
    requires IsWord(a) && IsWord(b)
    ensures Fields(a + "  " + b) == [a, b]
  {
    assert a + "  " + b == a + ("  " + b);
    assert ("  " + b)[0] == ' ';
    FieldsOfWord(a, "  " + b);
    assert ("  " + b)[1..] == " " + b && (" " + b)[1..] == b && (" " + b)[0] == ' ';
    assert Fields("  " + b) == Fields(" " + b) == Fields(b);
    FieldsOfWord(b, "");
    assert b + "" == b;
  }

  function LineEnd(s: string): (n: nat)
    ensures n <= |s| && '\n' !in s[..n] && (n < |s| ==> s[n] == '\n')
  {
    if s == "" || s[0] == '\n' then 0
    else
      var n := LineEnd(s[1..]);
      assert s[..n + 1] == [s[0]] + s[1..][..n];
      n + 1
  }

  function DropCr(s: string): string {
    if s != "" && s[|s| - 1] == '\r' then s[..|s| - 1] else s
  }

  /** The lines of a text, without their ends but with a carriage return before one; a final line need not be ended. */
  function Lines(s: string): seq<string>
    decreases |s|
  {
    if s == "" then []
    else
      var n := LineEnd(s);
      if n == |s| then [s] else [s[..n]] + Lines(s[n + 1..])
  }

  lemma LinesOfLine(line: string, rest: string)
    requires '\n' !in line
    ensures Lines(line + "\n" + rest) == [line] + Lines(rest)
  {
    var s := line + "\n" + rest;
    var n := LineEnd(s);
    assert s[|line|] == '\n';
    assert forall i :: 0 <= i < |line| ==> s[i] == line[i];
    assert forall i :: 0 <= i < n ==> s[..n][i] == s[i] && s[i] != '\n';
    assert n == |line|;
    assert s[..n] == line && s[n + 1..] == rest;
  }

  predicate IsHex(c: char) {
    '0' <= c <= '9' || 'a' <= c <= 'f' || 'A' <= c <= 'F'
  }

  /** Sixty-four hexadecimal digits. */
  predicate ValidSha256(s: string) {
    |s| == 64 && forall i :: 0 <= i < |s| ==> IsHex(s[i])
  }

  lemma DigestIsWord(s: string)
    requires ValidSha256(s)
    ensures IsWord(s)
  {
  }

  // ----- Reading and writing -----

  datatype Checksums = Read(table: map<string, string>) | Unreadable

  /** A line of this length, or longer, does not fit the scanner's buffer. */
  const TOO_LONG := 65536

  function ReadLine(table: map<string, string>, line: string): Checksums {
    var fields := Fields(DropCr(line));
    if |line| >= TOO_LONG || |fields| != 2 || !ValidSha256(fields[0]) || fields[1] in table then Unreadable
    else Read(table[fields[1] := fields[0]])
  }

  function ReadLines(lines: seq<string>): Checksums {
    if lines == [] then Read(map[])
    else
      var before := ReadLines(lines[..|lines| - 1]);
      if before.Unreadable? then before else ReadLine(before.table, lines[|lines| - 1])
  }

  method ReadChecksums(text: string) returns (r: Checksums)
    ensures r == ReadLines(Lines(text))
  {
    var table: map<string, string>, lines := map[], Lines(text);
    for i := 0 to |lines|
      invariant ReadLines(lines[..i]) == Read(table)
    {
      assert lines[..i + 1][..i] == lines[..i];
      var next := ReadLine(table, lines[i]);
      if next.Unreadable? {
        StaysUnreadable(lines, i + 1);
        return Unreadable;
      }
      table := next.table;
    }
    assert lines[..|lines|] == lines;
    r := Read(table);
  }

  lemma {:induction false} StaysUnreadable(lines: seq<string>, n: nat)
    requires n <= |lines| && ReadLines(lines[..n]).Unreadable?
    ensures ReadLines(lines).Unreadable?
    decreases |lines|
  {
    if n == |lines| {
      assert lines[..n] == lines;
    } else {
      assert lines[..|lines| - 1][..n] == lines[..n];
      StaysUnreadable(lines[..|lines| - 1], n);
    }
  }

  /** Whatever file was read, its names are words and its values digests. */
  lemma {:induction false} ReadTablesAreClean(lines: seq<string>, name: string)
    requires ReadLines(lines).Read? && name in ReadLines(lines).table
    ensures IsWord(name) && ValidSha256(ReadLines(lines).table[name])
  {
    var init, last := lines[..|lines| - 1], lines[|lines| - 1];
    if name in ReadLines(init).table {
      ReadTablesAreClean(init, name);
    } else {
      FieldsAreWords(DropCr(last), 1);
    }
  }

  function RawLine(s: Subject): string {
    s.checksum + "  " + s.name
  }

  function WriteSubjects(subjects: seq<Subject>): string {
    if subjects == [] then "" else RawLine(subjects[0]) + "\n" + WriteSubjects(subjects[1..])
  }

  function RawLines(subjects: seq<Subject>): seq<string> {
    seq(|subjects|, i requires 0 <= i < |subjects| => RawLine(subjects[i]))
  }

  predicate Writable(s: Subject) {
    IsWord(s.name) && ValidSha256(s.checksum)
  }

  lemma RawLineIsOneLine(s: Subject)
    requires Writable(s)
    ensures '\n' !in RawLine(s) && RawLine(s) != "" && RawLine(s)[|RawLine(s)| - 1] != '\r'
  {
    var line := RawLine(s);
    forall i | 0 <= i < |line| ensures line[i] != '\n' {
      assert i < 64 ==> line[i] == s.checksum[i];
      assert i >= 66 ==> line[i] == s.name[i - 66];
    }
    assert line[|line| - 1] == s.name[|s.name| - 1];
  }

  lemma RawLineFields(s: Subject)
    requires Writable(s)
    ensures Fields(DropCr(RawLine(s))) == [s.checksum, s.name]
  {
    RawLineIsOneLine(s);
    DigestIsWord(s.checksum);
    FieldsOfTwo(s.checksum, s.name);
  }

  lemma RawLinesCons(subjects: seq<Subject>)
    requires subjects != []
    ensures RawLines(subjects) == [RawLine(subjects[0])] + RawLines(subjects[1..])
  {
  }

  lemma {:induction false} WrittenLines(subjects: seq<Subject>)
    requires forall i :: 0 <= i < |subjects| ==> Writable(subjects[i])
    ensures Lines(WriteSubjects(subjects)) == RawLines(subjects)
  {
    if subjects != [] {
      var line, tail := RawLine(subjects[0]), WriteSubjects(subjects[1..]);
      RawLineIsOneLine(subjects[0]);
      WrittenLines(subjects[1..]);
      RawLinesCons(subjects);
      assert Lines(line + "\n" + tail) == [line] + Lines(tail) by {
        LinesOfLine(line, tail);
      }
    }
  }

  predicate DistinctNames(subjects: seq<Subject>) {
    forall i, j :: 0 <= i < j < |subjects| ==> subjects[i].name != subjects[j].name
  }

  /** The line of a subject fits the scanner's buffer. */
  predicate Short(s: Subject) {
    |RawLine(s)| < TOO_LONG
  }

  /** No two subjects share a name, and each line fits. */
  predicate Legible(subjects: seq<Subject>) {
    DistinctNames(subjects) && forall i :: 0 <= i < |subjects| ==> Short(subjects[i])
  }

  /** Exactly the given pairs. */
  ghost predicate Tabulates(table: map<string, string>, subjects: seq<Subject>) {
    && (forall i :: 0 <= i < |subjects| ==> subjects[i].name in table && table[subjects[i].name] == subjects[i].checksum)
    && (forall name :: name in table ==> exists i :: 0 <= i < |subjects| && subjects[i].name == name)
  }

  /** A subject that can join others: its line fits and its name is new. */
  predicate Joins(init: seq<Subject>, last: Subject) {
    Short(last) && forall i :: 0 <= i < |init| ==> init[i].name != last.name
  }

  lemma ReadAppend(init: seq<Subject>, last: Subject)
    ensures var before := ReadLines(RawLines(init));
            ReadLines(RawLines(init + [last])) ==
            if before.Unreadable? then before else ReadLine(before.table, RawLine(last))
  {
    var lines := RawLines(init + [last]);
    assert lines[..|lines| - 1] == RawLines(init) && lines[|lines| - 1] == RawLine(last);
  }

  lemma {:induction false} ReadRawLines(subjects: seq<Subject>)
    requires forall i :: 0 <= i < |subjects| ==> Writable(subjects[i])
    ensures ReadLines(RawLines(subjects)).Read? <==> Legible(subjects)
    ensures Legible(subjects) ==> Tabulates(ReadLines(RawLines(subjects)).table, subjects)
  {
    if subjects != [] {
      var n := |subjects| - 1;
      var init, last := subjects[..n], subjects[n];
      assert subjects == init + [last];
      ReadRawLines(init);
      ReadAppend(init, last);
      AddName(init, last);
      if Legible(init) {
        ReadOneMore(ReadLines(RawLines(init)).table, init, last);
      }
    }
  }

  lemma ReadOneMore(table: map<string, string>, init: seq<Subject>, last: Subject)
    requires Tabulates(table, init) && Writable(last)
    ensures var r := ReadLine(table, RawLine(last));
            (r.Read? <==> Joins(init, last)) && (Joins(init, last) ==> Tabulates(r.table, init + [last]))
  {
    RawLineFields(last);
    if last.name !in table {
      AddRow(table, init, last);
    }
  }

  lemma AddRow(table: map<string, string>, init: seq<Subject>, last: Subject)
    requires Tabulates(table, init) && last.name !in table
    ensures Tabulates(table[last.name := last.checksum], init + [last])
  {
    var all, more := init + [last], table[last.name := last.checksum];
    forall name | name in more ensures exists i :: 0 <= i < |all| && all[i].name == name {
      if name == last.name {
        assert all[|init|].name == name;
      } else {
        var i :| 0 <= i < |init| && init[i].name == name;
        assert all[i].name == name;
      }
    }
  }

  lemma AddName(init: seq<Subject>, last: Subject)
    ensures Legible(init + [last]) <==> Legible(init) && Joins(init, last)
  {
    var all := init + [last];
    assert forall i :: 0 <= i < |init| ==> all[i] == init[i];
    assert all[|init|] == last;
    if DistinctNames(all) {
      forall i, j | 0 <= i < j < |init| ensures init[i].name != init[j].name {
        assert all[i] == init[i] && all[j] == init[j];
      }
      forall i | 0 <= i < |init| ensures init[i].name != last.name {
        assert all[i] == init[i] && all[|init|] == last;
      }
    }
  }

  /** The round trip: the written subjects file reads back exactly when no two subjects share a name and no line is too
      long, and then it reads back as exactly the pairs that were written. */
  lemma SubjectsRoundTrip(subjects: seq<Subject>)
    requires forall i :: 0 <= i < |subjects| ==> Writable(subjects[i])
    ensures ReadLines(Lines(WriteSubjects(subjects))).Read? <==> Legible(subjects)
    ensures Legible(subjects) ==> Tabulates(ReadLines(Lines(WriteSubjects(subjects))).table, subjects)
  {
    WrittenLines(subjects);
    ReadRawLines(subjects);
  }

  // ----- Coverage of the selected artifacts -----

  const BUNDLE := ".cosign.bundle"
  const SBOM := ".sbom.json"

  function DigestOf(a: Artifact): string {
    TrimPrefix(a.checksum, "sha256:")
  }

  /** The artifact's file, both of its sidecars, and one digest under two witnesses. */
  predicate Covered(a: Artifact, checksums: map<string, string>, files: set<string>) {
    && a.name in files
    && HasPrefix(a.checksum, "sha256:") && ValidSha256(DigestOf(a))
    && a.name in checksums && checksums[a.name] == DigestOf(a)
    && a.name + BUNDLE in files && a.name + SBOM in files
  }

  /** A sidecar file that belongs to nothing in the release. */
  predicate Orphan(name: string, names: set<string>, sboms: set<string>) {
    || (HasSuffix(name, SBOM) && name !in sboms)
    || (HasSuffix(name, BUNDLE) &&
        var signed := TrimSuffix(name, BUNDLE);
        signed != "checksums.txt" && signed !in names && signed !in sboms)
  }

  function NamesOf(covered: seq<Artifact>): set<string> {
    set i | 0 <= i < |covered| :: covered[i].name
  }

  function SbomsOf(covered: seq<Artifact>): set<string> {
    set i | 0 <= i < |covered| :: covered[i].name + SBOM
  }

  function SubjectsOf(covered: seq<Artifact>): seq<Subject> {
    seq(|covered|, i requires 0 <= i < |covered| => Subject(covered[i].name, DigestOf(covered[i])))
  }

  predicate ByName(a: Subject, b: Subject) {
    TextOrder.Less(a.name, b.name)
  }

  lemma ByNameIsWeakOrder()
    ensures WeakOrder(ByName)
  {
    forall a, b | ByName(a, b) ensures !ByName(b, a) {
      TextOrder.LessTotal(a.name, b.name);
    }
    forall a, b, c | !ByName(b, a) && !ByName(c, b) ensures !ByName(c, a) {
      TextOrder.LessTotal(a.name, b.name);
      TextOrder.LessTotal(b.name, c.name);
      TextOrder.LessTotal(a.name, c.name);
      if ByName(a, b) && ByName(b, c) {
        TextOrder.LessTransitive(a.name, b.name, c.name);
      }
    }
  }

  lemma SortedByName(subjects: seq<Subject>)
    ensures Sorted(ByName, Sort(ByName, subjects))
  {
    ByNameIsWeakOrder();
    SortSorts(ByName, subjects);
  }

  datatype Coverage = Verified(subjects: seq<Subject>) | Uncovered

  method VerifyNoOrphanSidecars(files: set<string>, names: set<string>, sboms: set<string>) returns (ok: bool)
    ensures ok <==> forall name :: name in files ==> !Orphan(name, names, sboms)
  {
    var todo := files;
    while todo != {}
      invariant todo <= files
      invariant forall name :: name in files && name !in todo ==> !Orphan(name, names, sboms)
      decreases todo
    {
      var name :| name in todo;
      if Orphan(name, names, sboms) {
        return false;
      }
      todo := todo - {name};
    }
    ok := true;
  }

  lemma NamesAppend(covered: seq<Artifact>, n: nat)
    requires n < |covered|
    ensures NamesOf(covered[..n + 1]) == NamesOf(covered[..n]) + {covered[n].name}
    ensures SbomsOf(covered[..n + 1]) == SbomsOf(covered[..n]) + {covered[n].name + SBOM}
    ensures SubjectsOf(covered[..n + 1]) == SubjectsOf(covered[..n]) + [Subject(covered[n].name, DigestOf(covered[n]))]
  {
    var less, more := covered[..n], covered[..n + 1];
    assert more == less + [covered[n]];
    forall i | 0 <= i < |less| ensures less[i].name in NamesOf(more) && less[i].name + SBOM in SbomsOf(more) {
      assert more[i] == less[i];
    }
    assert more[n] == covered[n];
  }

  /** Everything that verification asks of the selected artifacts. */
  ghost predicate Passes(covered: seq<Artifact>, checksums: map<string, string>, files: set<string>) {
    && (forall i :: 0 <= i < |covered| ==> Covered(covered[i], checksums, files))
    && (forall name :: name in files ==> !Orphan(name, NamesOf(covered), SbomsOf(covered)))
  }

  /** From one checksum file to the next. When the checksums were read from a file and coverage was verified, every
      subject can be written; the subjects file then reads back exactly when no two artifacts share a name and no
      line is too long, and what it says of each of them is what the checksum file said. */
  lemma VerifiedSubjectsReadBack(text: string, covered: seq<Artifact>, checksums: map<string, string>,
                                 files: set<string>, subjects: seq<Subject>)
    requires ReadLines(Lines(text)) == Read(checksums)
    requires forall i :: 0 <= i < |covered| ==> Covered(covered[i], checksums, files)
    requires multiset(subjects) == multiset(SubjectsOf(covered))
    ensures var back := ReadLines(Lines(WriteSubjects(subjects)));
            && (back.Read? <==> Legible(subjects))
            && (back.Read? ==> forall name :: name in back.table ==>
                  name in checksums && back.table[name] == checksums[name] && name in NamesOf(covered))
            && (back.Read? ==> forall i :: 0 <= i < |covered| ==> covered[i].name in back.table)
  {
    forall i | 0 <= i < |subjects| ensures Matched(subjects[i], covered, checksums) {
      assert subjects[i] in multiset(subjects);
      assert subjects[i] in SubjectsOf(covered);
      var j :| 0 <= j < |covered| && SubjectsOf(covered)[j] == subjects[i];
      ReadTablesAreClean(Lines(text), covered[j].name);
      assert covered[j].name in NamesOf(covered);
    }
    SubjectsRoundTrip(subjects);
    forall i | 0 <= i < |covered| ensures exists j :: 0 <= j < |subjects| && subjects[j].name == covered[i].name {
      assert SubjectsOf(covered)[i] in multiset(subjects);
      assert SubjectsOf(covered)[i] in subjects;
      var j :| 0 <= j < |subjects| && subjects[j] == SubjectsOf(covered)[i];
      assert subjects[j].name == covered[i].name;
    }
  }

  // ----- What a checksum line is -----

  predicate AllSpace(s: string) {
    forall i :: 0 <= i < |s| ==> IsSpace(s[i])
  }

  lemma {:induction false} FieldsSkip(l: string, s: string)
    requires AllSpace(l)
    ensures Fields(l + s) == Fields(s)
  {
    if l == "" {
      assert l + s == s;
    } else {
      assert (l + s)[1..] == l[1..] + s;
      FieldsSkip(l[1..], s);
    }
  }

  /** A line of two words: white space may stand around them and must stand between them. */
  predicate TwoWords(line: string, l: string, a: string, m: string, b: string, r: string) {
    && line == l + a + m + b + r && AllSpace(l) && AllSpace(m) && AllSpace(r) && m != "" && IsWord(a) && IsWord(b)
  }

  lemma TwoWordsFields(line: string, l: string, a: string, m: string, b: string, r: string)
    requires TwoWords(line, l, a, m, b, r)
    ensures Fields(line) == [a, b]
  {
    var rest := m + (b + r);
    assert line == l + (a + rest) && rest[0] == m[0];
    FieldsSkip(l, a + rest);
    FieldsOfWord(a, rest);
    FieldsSkip(m, b + r);
    FieldsOfWord(b, r);
    assert r + "" == r;
    FieldsSkip(r, "");
  }

  /** The white space a text begins with, and the rest. */
  lemma {:induction false} SplitSpace(s: string) returns (l: string, rest: string)
    ensures s == l + rest && AllSpace(l) && (rest == "" || !IsSpace(rest[0])) && Fields(s) == Fields(rest)
    decreases |s|
  {
    if s != "" && IsSpace(s[0]) {
      var k;
      k, rest := SplitSpace(s[1..]);
      l := [s[0]] + k;
      assert s == [s[0]] + s[1..];
    } else {
      l, rest := "", s;
      assert l + rest == s;
    }
  }

  /** The first word of a text, with the white space before it. */
  lemma FirstWord(s: string, w: string, others: seq<string>) returns (l: string, rest: string)
    requires Fields(s) == [w] + others
    ensures s == l + w + rest && AllSpace(l) && IsWord(w) && (rest == "" || IsSpace(rest[0])) && Fields(rest) == others
    ensures IsSpace(s[0]) ==> l != ""
  {
    var t;
    l, t := SplitSpace(s);
    rest := t[WordEnd(t)..];
    assert Fields(t) == [t[..WordEnd(t)]] + Fields(rest);
    assert t[..WordEnd(t)] == Fields(s)[0] == w;
    assert Fields(rest) == Fields(s)[1..] == others;
    assert t == w + rest;
  }

  lemma {:induction false} FieldsNone(s: string)
    requires Fields(s) == []
    ensures AllSpace(s)
    decreases |s|
  {
    if s != "" {
      FieldsNone(s[1..]);
      assert s == [s[0]] + s[1..];
    }
  }

  lemma FieldsTwoWords(line: string, a: string, b: string) returns (l: string, m: string, r: string)
    requires Fields(line) == [a, b]
    ensures TwoWords(line, l, a, m, b, r)
  {
    var s;
    l, s := FirstWord(line, a, [b]);
    m, r := FirstWord(s, b, []);
    FieldsNone(r);
    assert line == l + a + (m + b + r);
  }

  /** A line that is a digest and a name. */
  predicate ChecksumLine(line: string, l: string, d: string, m: string, name: string, e: string) {
    TwoWords(line, l, d, m, name, e) && HexDigest(d)
  }

  /** What a checksum line is: one that fits the buffer and consists of a digest and a name that is not taken, with white
      space between them and perhaps around them. Then the name maps to the digest; any other line is refused. */
  lemma ReadLineExactly(table: map<string, string>, line: string)
    ensures forall l, d, m, name, e :: |line| < 65536 && ChecksumLine(DropCr(line), l, d, m, name, e) && name !in table ==>
              ReadLine(table, line) == Read(table[name := d])
    ensures ReadLine(table, line).Read? ==>
              |line| < 65536 && exists l, d, m, name, e :: ChecksumLine(DropCr(line), l, d, m, name, e) && name !in table
  {
    var text := DropCr(line);
    if ReadLine(table, line).Read? {
      var d, name := Fields(text)[0], Fields(text)[1];
      assert Fields(text) == [d, name];
      var l, m, e := FieldsTwoWords(text, d, name);
      DigestExactly(d);
      assert ChecksumLine(text, l, d, m, name, e);
    }
    forall l, d, m, name, e | |line| < 65536 && ChecksumLine(text, l, d, m, name, e) && name !in table
      ensures ReadLine(table, line) == Read(table[name := d])
    {
      TwoWordsFields(text, l, d, m, name, e);
      DigestExactly(d);
    }
  }

  // ----- What a verified release has -----

  /** Sixty-four hexadecimal digits of either case. */
  predicate HexDigest(d: string) {
    |d| == 64 && forall c :: c in d ==> c in "0123456789abcdefABCDEF"
  }

  lemma DigestExactly(d: string)
    ensures ValidSha256(d) <==> HexDigest(d)
  {
    assert forall c :: c in "0123456789abcdefABCDEF" <==> IsHex(c);
  }

  /** The artifact is there, and with it its signature bundle and its bill of materials; its checksum names a digest, and
      the checksum file names the same one. */
  ghost predicate Complete(a: Artifact, checksums: map<string, string>, files: set<string>) {
    && a.name in files && a.name + ".cosign.bundle" in files && a.name + ".sbom.json" in files
    && exists d :: HexDigest(d) && a.checksum == "sha256:" + d && a.name in checksums && checksums[a.name] == d
  }

  lemma CoveredExactly(a: Artifact, checksums: map<string, string>, files: set<string>)
    ensures Covered(a, checksums, files) <==> Complete(a, checksums, files)
  {
    if HasPrefix(a.checksum, "sha256:") {
      assert a.checksum == "sha256:" + DigestOf(a);
    }
    DigestExactly(DigestOf(a));
    if d :| HexDigest(d) && a.checksum == "sha256:" + d {
      DigestAfterPrefix(d);
      DigestExactly(d);
    }
  }

  predicate Named(name: string, x: string, extension: string) {
    name == x + extension
  }

  predicate HasName(covered: seq<Artifact>, x: string) {
    exists i :: 0 <= i < |covered| && covered[i].name == x
  }

  /** Every bill of materials among the files belongs to an artifact, and every signature bundle to an artifact, to an
      artifact's bill of materials, or to the checksum file. */
  ghost predicate Owned(covered: seq<Artifact>, files: set<string>) {
    && (forall name, x :: name in files && Named(name, x, ".sbom.json") ==> HasName(covered, x))
    && (forall name, x :: name in files && Named(name, x, ".cosign.bundle") ==>
          x == "checksums.txt" || HasName(covered, x) || exists y :: HasName(covered, y) && Named(x, y, ".sbom.json"))
  }

  lemma SuffixExactly(name: string, extension: string)
    ensures HasSuffix(name, extension) ==> Named(name, TrimSuffix(name, extension), extension)
    ensures forall x :: Named(name, x, extension) ==> HasSuffix(name, extension) && TrimSuffix(name, extension) == x
  {
  }

  lemma NamesExactly(covered: seq<Artifact>, x: string)
    ensures x in NamesOf(covered) <==> HasName(covered, x)
    ensures x in SbomsOf(covered) <==> exists y :: HasName(covered, y) && Named(x, y, ".sbom.json")
  {
    if x in SbomsOf(covered) {
      var i :| 0 <= i < |covered| && covered[i].name + SBOM == x;
      assert HasName(covered, covered[i].name) && Named(x, covered[i].name, ".sbom.json");
    }
  }

  lemma OrphanExactly(covered: seq<Artifact>, name: string)
    ensures !Orphan(name, NamesOf(covered), SbomsOf(covered)) <==> Owned(covered, {name})
  {
    SuffixExactly(name, ".sbom.json");
    SuffixExactly(name, ".cosign.bundle");
    var x, signed := TrimSuffix(name, ".sbom.json"), TrimSuffix(name, ".cosign.bundle");
    NamesExactly(covered, x);
    NamesExactly(covered, name);
    NamesExactly(covered, signed);
    assert forall y :: Named(name, y, ".sbom.json") ==> y == x;
    assert forall y :: Named(name, y, ".cosign.bundle") ==> y == signed;
  }

  lemma OwnedOneByOne(covered: seq<Artifact>, files: set<string>)
    ensures Owned(covered, files) <==> forall name :: name in files ==> Owned(covered, {name})
  {
    if forall name :: name in files ==> Owned(covered, {name}) {
      forall name, x | name in files && Named(name, x, ".sbom.json") ensures HasName(covered, x) {
        assert name in {name} && Owned(covered, {name});
      }
      forall name, x | name in files && Named(name, x, ".cosign.bundle")
        ensures x == "checksums.txt" || HasName(covered, x) || exists y :: HasName(covered, y) && Named(x, y, ".sbom.json")
      {
        assert name in {name} && Owned(covered, {name});
      }
    }
  }

  /** What verification asks, in terms of the files: every artifact is complete and every sidecar owned. */
  lemma PassesExactly(covered: seq<Artifact>, checksums: map<string, string>, files: set<string>)
    ensures Passes(covered, checksums, files) <==>
            (forall i :: 0 <= i < |covered| ==> Complete(covered[i], checksums, files)) && Owned(covered, files)
  {
    forall i | 0 <= i < |covered| {
      CoveredExactly(covered[i], checksums, files);
    }
    forall name | name in files {
      OrphanExactly(covered, name);
    }
    OwnedOneByOne(covered, files);
  }

  /** No file of a verified release can be missing: without an artifact, its signature bundle or its bill of materials
      verification fails. */
  lemma MissingFileFails(covered: seq<Artifact>, checksums: map<string, string>, files: set<string>, i: nat, file: string)
    requires i < |covered|
    requires file in {covered[i].name, covered[i].name + ".cosign.bundle", covered[i].name + ".sbom.json"}
    ensures !Passes(covered, checksums, files - {file})
  {
    PassesExactly(covered, checksums, files - {file});
  }

  /** Nor can a digest differ from the checksum file's. */
  lemma WrongDigestFails(covered: seq<Artifact>, checksums: map<string, string>, files: set<string>, i: nat)
    requires i < |covered| && covered[i].name in checksums
    requires covered[i].checksum != "sha256:" + checksums[covered[i].name]
    ensures !Passes(covered, checksums, files)
  {
    PassesExactly(covered, checksums, files);
  }

  /** Verification of the selected artifacts: it succeeds exactly when each is complete and every sidecar is owned,
      and then returns one subject per artifact, ordered by name. */
  method VerifyCoverage(covered: seq<Artifact>, checksums: map<string, string>, files: set<string>) returns (r: Coverage)
    ensures r.Verified? <==>
            (forall i :: 0 <= i < |covered| ==> Complete(covered[i], checksums, files)) && Owned(covered, files)
    ensures r.Verified? ==> Sorted(ByName, r.subjects) && multiset(r.subjects) == multiset(SubjectsOf(covered))
  {
    PassesExactly(covered, checksums, files);
    var subjects: seq<Subject>, names: set<string>, sboms: set<string> := [], {}, {};
    for n := 0 to |covered|
      invariant forall i :: 0 <= i < n ==> Covered(covered[i], checksums, files)
      invariant names == NamesOf(covered[..n]) && sboms == SbomsOf(covered[..n]) && subjects == SubjectsOf(covered[..n])
    {
      if !Covered(covered[n], checksums, files) {
        return Uncovered;
      }
      NamesAppend(covered, n);
      names, sboms := names + {covered[n].name}, sboms + {covered[n].name + SBOM};
      subjects := subjects + [Subject(covered[n].name, DigestOf(covered[n]))];
    }
    assert covered[..|covered|] == covered;
    var ok := VerifyNoOrphanSidecars(files, names, sboms);
    if !ok {
      return Uncovered;
    }
    SortedByName(subjects);
    r := Verified(Sort(ByName, subjects));
  }

  // ----- A line one character too long -----

  /** A checksum line that just fits, with one space where the writer puts two. */
  lemma LongNameUnreadable(s: Subject)
    requires Writable(s) && |s.name| == TOO_LONG - 66
    ensures ReadLines(Lines(s.checksum + " " + s.name)) == Read(map[s.name := s.checksum])
    ensures !ReadLines(Lines(WriteSubjects([s]))).Read?
  {
    var line := s.checksum + " " + s.name;
    LoneLine(s);
    OneSpaceFields(s);
    assert [line][..0] == [];
    SubjectsRoundTrip([s]);
    assert !Short([s][0]);
  }

  lemma LoneLine(s: Subject)
    requires Writable(s)
    ensures var line := s.checksum + " " + s.name; Lines(line) == [line] && DropCr(line) == line
  {
    var line := s.checksum + " " + s.name;
    forall i | 0 <= i < |line| ensures line[i] != '\n' {
      assert i < 64 ==> line[i] == s.checksum[i];
      assert i >= 65 ==> line[i] == s.name[i - 65];
    }
    var n := LineEnd(line);
    assert line[|line| - 1] == s.name[|s.name| - 1];
  }

  lemma OneSpaceFields(s: Subject)
    requires Writable(s)
    ensures Fields(s.checksum + " " + s.name) == [s.checksum, s.name]
  {
    DigestIsWord(s.checksum);
    assert s.checksum + " " + s.name == s.checksum + (" " + s.name);
    FieldsOfWord(s.checksum, " " + s.name);
    assert (" " + s.name)[1..] == s.name;
    FieldsOfWord(s.name, "");
    assert s.name + "" == s.name;
  }

  // ----- Two artifacts of one name -----

  const SHARED := "x1-1y"

  const ON_LINUX := PrimaryAsset("cli", "Archive", "linux", "amd64", "zip", "x{version}-1y")
  const ON_WINDOWS := PrimaryAsset("cli", "Archive", "windows", "amd64", "zip", "x1-{version}y")

  function SharedBuild(goos: string, digest: string): Artifact {
    Artifact(SHARED, "Archive", goos, "amd64", "sha256:" + digest, "zip", "cli")
  }

  function SharedBuilds(digest: string): seq<Artifact> {
    [SharedBuild("linux", digest), SharedBuild("windows", digest)]
  }

  lemma SharedOnLinux(digest: string)
    ensures Matches(ON_LINUX, SharedBuild("linux", digest)) == Some("1")
    ensures Matches(ON_LINUX, SharedBuild("windows", digest)) == None
  {
    var a := SharedBuild("linux", digest);
    FormatIsZip(a);
    assert "x{version}-1y" == "x" + PLACEHOLDER + "-1y";
    assert SHARED[1..] == "1-1y" && SHARED[2..] == "-1y" && "1-1y"[1..] == "-1y" && "1-1y"[..1] == "1";
    VersionOf(ON_LINUX, a, "x", "-1y", "1");
  }

  lemma SharedOnWindows(digest: string)
    ensures Matches(ON_WINDOWS, SharedBuild("windows", digest)) == Some("1")
  {
    var a := SharedBuild("windows", digest);
    FormatIsZip(a);
    assert "x1-{version}y" == "x1-" + PLACEHOLDER + "y";
    assert SHARED[3..] == "1y" && SHARED[4..] == "y" && "1y"[1..] == "y" && "1y"[..1] == "1";
    VersionOf(ON_WINDOWS, a, "x1-", "y", "1");
  }

  /** Two artifacts of one name can both be selected: the templates are for different platforms and differ. */
  lemma SharedAssigned(digest: string)
    ensures Covers([ON_LINUX, ON_WINDOWS], SharedBuilds(digest), [0, 1], SharedBuilds(digest))
  {
    SharedOnLinux(digest);
    SharedOnWindows(digest);
    TwoAssigned(ON_LINUX, ON_WINDOWS, SharedBuild("linux", digest), SharedBuild("windows", digest), "1");
  }

  const SHARED_FILES := {SHARED, SHARED + BUNDLE, SHARED + SBOM}

  lemma DigestAfterPrefix(digest: string)
    ensures HasPrefix("sha256:" + digest, "sha256:") && TrimPrefix("sha256:" + digest, "sha256:") == digest
  {
  }

  lemma SharedNotOrphan(name: string)
    requires name in SHARED_FILES
    ensures !Orphan(name, {SHARED}, {SHARED + SBOM})
  {
    if name == SHARED + BUNDLE {
      assert name[|name| - 1] != SBOM[|SBOM| - 1];
      assert TrimSuffix(name, BUNDLE) == SHARED;
    } else {
      assert name[|name| - 1] != BUNDLE[|BUNDLE| - 1];
    }
  }

  /** They can both pass. */
  lemma SharedPasses(digest: string)
    requires ValidSha256(digest)
    ensures Passes(SharedBuilds(digest), map[SHARED := digest], SHARED_FILES)
  {
    var builds := SharedBuilds(digest);
    DigestAfterPrefix(digest);
    assert builds[0].name == SHARED;
    assert NamesOf(builds) == {SHARED} && SbomsOf(builds) == {SHARED + SBOM};
    forall name | name in SHARED_FILES {
      SharedNotOrphan(name);
    }
  }

  /** Two subjects of one name do not read back. */
  lemma TwiceUnreadable(s: Subject, subjects: seq<Subject>)
    requires Writable(s) && multiset(subjects) == multiset([s, s])
    ensures !ReadLines(Lines(WriteSubjects(subjects))).Read?
  {
    assert |multiset(subjects)| == |subjects| == 2;
    forall i | 0 <= i < |subjects| ensures subjects[i] == s {
      assert subjects[i] in multiset(subjects);
      assert subjects[i] in [s, s];
    }
    SubjectsRoundTrip(subjects);
  }

  lemma SharedSubjects(digest: string)
    requires ValidSha256(digest)
    ensures SubjectsOf(SharedBuilds(digest)) == [Subject(SHARED, digest), Subject(SHARED, digest)]
    ensures Writable(Subject(SHARED, digest))
  {
    DigestAfterPrefix(digest);
  }

  /** And then, in whatever order the subjects come, the file written of them does not read back. */
  lemma SharedUnreadable(digest: string, subjects: seq<Subject>)
    requires ValidSha256(digest) && multiset(subjects) == multiset(SubjectsOf(SharedBuilds(digest)))
    ensures !ReadLines(Lines(WriteSubjects(subjects))).Read?
  {
    SharedSubjects(digest);
    TwiceUnreadable(Subject(SHARED, digest), subjects);
  }

  predicate Matched(s: Subject, covered: seq<Artifact>, checksums: map<string, string>) {
    Writable(s) && s.name in NamesOf(covered) && s.name in checksums && checksums[s.name] == s.checksum
  }
}
