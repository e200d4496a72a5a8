/** Commits against the changelog: which checked commits a release's section does not mention, and the proof that the
    repair leaves none and touches no other section. */
module ChangelogRepair {
  import opened Basics
  import opened Text
  import opened Changelog

  /** A commit with its subject already parsed as type(scope)!: summary (#pr); an unconventional one has no kind. */
  datatype Commit = Commit(
    sha: string, full: string, kind: string, scope: Option<string>, breaking: bool, summary: string, pr: Option<string>)

  predicate IsWordChar(c: char) {
    'a' <= c <= 'z' || 'A' <= c <= 'Z' || '0' <= c <= '9' || c == '_'
  }

  /** The release's own commit is not a change in it. */
  predicate IsRelease(c: Commit) {
    && c.kind == "chore" && c.scope == Some("main") && !c.breaking && HasPrefix(c.summary, "release")
    && (|c.summary| == 7 || !IsWordChar(c.summary[7]))
  }

  /** How an entry is recognised: by its pull request, else by its abbreviated hash. */
  function Needle(c: Commit): string {
    if c.pr.Some? then "#" + c.pr.value else c.sha
  }

  predicate IsMissing(section: string, types: set<string>, c: Commit) {
    !IsRelease(c) && c.kind != "" && c.kind in types && !Contains(section, Needle(c))
  }

  function MissingIn(section: string, types: set<string>, commits: seq<Commit>): seq<Commit> {
    if commits == [] then []
    else
      var before, last := MissingIn(section, types, commits[..|commits| - 1]), commits[|commits| - 1];
      if IsMissing(section, types, last) then before + [last] else before
  }

  datatype Audit = NoSuchSection | Missing(commits: seq<Commit>)

  method MissingEntries(text: string, version: string, types: set<string>, commits: seq<Commit>) returns (r: Audit)
    ensures r == var c := CutFor(text, version);
                 if c.NoSection? then NoSuchSection else Missing(MissingIn(c.section, types, commits))
  {
    var c := CutFor(text, version);
    if c.NoSection? {
      return NoSuchSection;
    }
    var missing: seq<Commit> := [];
    assert commits[..|commits|] == commits;
    for i := 0 to |commits|
      invariant missing == MissingIn(c.section, types, commits[..i])
    {
      assert commits[..i + 1][..i] == commits[..i];
      if IsMissing(c.section, types, commits[i]) {
        missing := missing + [commits[i]];
      }
    }
    r := Missing(missing);
  }

  // ----- The entries -----

  datatype Forge = Forge(slug: string, titles: map<string, string>)

  function Body(c: Commit, slug: string): string {
    (if c.scope.Some? then "**" + c.scope.value + ":** " else "") + c.summary +
    (if c.pr.Some? then " ([" + ("#" + c.pr.value) + "](https://github.com/" + slug + "/issues/" + c.pr.value + "))" else "")
  }

  function RenderEntry(c: Commit, slug: string): string {
    "* " + Body(c, slug) + " ([" + c.sha + "](https://github.com/" + slug + "/commit/" + c.full + "))"
  }

  function EntryLine(c: Commit, forge: Forge): string {
    RenderEntry(c, forge.slug) + (" \U{2014} _" + (if c.kind in forge.titles then forge.titles[c.kind] else c.kind) + "_")
  }

  const NOTE_TITLE := "### Also shipped in this release"
  const NOTE_1 := "<!-- Added by " + "scripts/check-" + "release-changelog" + ".py: these " + "commits are"
  const NOTE_2 := "     contained in" + " the tag but were" + " absent from " + "the generated"
  const NOTE_3 := "     changelog, " + "because they " + "merged after " + "release-please " + "last"
  const NOTE_4 := "     regenerated " + "the release PR. -->"

  /** The heading that names why the entries are here, and its explanation. */
  const NOTE: seq<string> := ["", NOTE_TITLE, "", NOTE_1, NOTE_2, NOTE_3, NOTE_4, ""]

  function EntryLines(missing: seq<Commit>, forge: Forge): seq<string> {
    seq(|missing|, i requires 0 <= i < |missing| => EntryLine(missing[i], forge))
  }

  function FixLines(missing: seq<Commit>, forge: Forge): seq<string> {
    NOTE + EntryLines(missing, forge) + [""]
  }

  /** Appends the missing commits to the version's section. */
  method ApplyFix(text: string, version: string, missing: seq<Commit>, forge: Forge) returns (fixed: string)
    requires CutFor(text, version).Cut?
    ensures fixed == Repaired(text, version, FixLines(missing, forge))
  {
    var lines := NOTE;
    for i := 0 to |missing|
      invariant lines == NOTE + EntryLines(missing[..i], forge)
    {
      assert EntryLines(missing[..i + 1], forge) == EntryLines(missing[..i], forge) + [EntryLine(missing[i], forge)];
      lines := lines + [EntryLine(missing[i], forge)];
    }
    assert missing[..|missing|] == missing;
    lines := lines + [""];
    fixed := Repaired(text, version, lines);
  }

  // ----- Entries are plain lines that mention their commit -----

  predicate OneLine(s: string) {
    '\n' !in s
  }

  /** Commit fields and links, as git and the forge give them, hold no line break, and no needle is empty. */
  predicate CleanCommit(c: Commit) {
    && OneLine(c.sha) && OneLine(c.full) && OneLine(c.kind) && OneLine(c.summary) && c.sha != ""
    && (c.scope.Some? ==> OneLine(c.scope.value)) && (c.pr.Some? ==> OneLine(c.pr.value))
  }

  ghost predicate CleanForge(forge: Forge) {
    OneLine(forge.slug) && forall k :: k in forge.titles ==> OneLine(forge.titles[k])
  }

  lemma OneLineConcat(a: string, b: string)
    requires OneLine(a) && OneLine(b)
    ensures OneLine(a + b)
  {
  }

  lemma BodyOneLine(c: Commit, slug: string)
    requires CleanCommit(c) && OneLine(slug)
    ensures OneLine(Body(c, slug))
  {
  }

  lemma EntryPlain(c: Commit, forge: Forge)
    requires CleanCommit(c) && CleanForge(forge)
    ensures PlainLine(EntryLine(c, forge))
  {
    BodyOneLine(c, forge.slug);
    var entry := RenderEntry(c, forge.slug);
    assert OneLine(entry);
    var tail := " \U{2014} _" + (if c.kind in forge.titles then forge.titles[c.kind] else c.kind) + "_";
    assert OneLine(tail);
    OneLineConcat(entry, tail);
    assert EntryLine(c, forge)[0] == '*' && ANY[0] == '#';
  }

  lemma PlainByFirst(line: string)
    requires OneLine(line) && line != "" && line[0] != '#'
    ensures PlainLine(line)
  {
  }

  lemma NoteTitlePlain()
    ensures PlainLine(NOTE_TITLE)
  {
    assert NOTE_TITLE[2] != ANY[2];
  }

  lemma Note1Plain()
    ensures PlainLine(NOTE_1)
  {
    PlainByFirst(NOTE_1);
  }

  lemma Note2Plain()
    ensures PlainLine(NOTE_2)
  {
    PlainByFirst(NOTE_2);
  }

  lemma Note3Plain()
    ensures PlainLine(NOTE_3)
  {
    PlainByFirst(NOTE_3);
  }

  lemma Note4Plain()
    ensures PlainLine(NOTE_4)
  {
    PlainByFirst(NOTE_4);
  }

  lemma NotePlain(i: nat)
    requires i < |NOTE|
    ensures PlainLine(NOTE[i])
  {
    NoteTitlePlain();
    Note1Plain();
    Note2Plain();
    Note3Plain();
    Note4Plain();
    assert NOTE[i] in {"", NOTE_TITLE, NOTE_1, NOTE_2, NOTE_3, NOTE_4};
  }

  lemma FixLinesPlain(missing: seq<Commit>, forge: Forge)
    requires CleanForge(forge) && forall i :: 0 <= i < |missing| ==> CleanCommit(missing[i])
    ensures forall i :: 0 <= i < |FixLines(missing, forge)| ==> PlainLine(FixLines(missing, forge)[i])
  {
    var lines := FixLines(missing, forge);
    forall i | 0 <= i < |lines| ensures PlainLine(lines[i]) {
      if i < |NOTE| {
        NotePlain(i);
      } else if i < |NOTE| + |missing| {
        EntryPlain(missing[i - |NOTE|], forge);
      }
    }
  }

  lemma ContainsMiddle(a: string, x: string, b: string)
    ensures Contains(a + x + b, x)
  {
    assert (a + x + b)[|a|..] == x + b;
    assert OccursAt(a + x + b, x, |a|);
  }

  lemma ContainsWithin(a: string, s: string, b: string, x: string)
    requires Contains(s, x)
    ensures Contains(a + s + b, x)
  {
    var i :| 0 <= i <= |s| && OccursAt(s, x, i);
    assert s == s[..i] + x + s[i + |x|..];
    assert a + s + b == (a + s[..i]) + x + (s[i + |x|..] + b);
    ContainsMiddle(a + s[..i], x, s[i + |x|..] + b);
  }

  lemma BodyMentions(c: Commit, slug: string)
    requires c.pr.Some?
    ensures Contains(Body(c, slug), "#" + c.pr.value)
  {
    var a := (if c.scope.Some? then "**" + c.scope.value + ":** " else "") + c.summary + " ([";
    var b := "](https://github.com/" + slug + "/issues/" + c.pr.value + "))";
    assert Body(c, slug) == a + ("#" + c.pr.value) + b;
    ContainsMiddle(a, "#" + c.pr.value, b);
  }

  lemma EntryMentions(c: Commit, forge: Forge)
    ensures Contains(EntryLine(c, forge), Needle(c))
  {
    var entry, tail := RenderEntry(c, forge.slug), EntryLine(c, forge)[|RenderEntry(c, forge.slug)|..];
    assert EntryLine(c, forge) == "" + entry + tail;
    RenderMentions(c, forge.slug);
    ContainsWithin("", entry, tail, Needle(c));
  }

  lemma FiveParts(a: string, b: string, c: string, d: string, e: string)
    ensures a + b + c + d + e == a + b + (c + d + e)
    ensures a + b + c + d + e == (a + b + c) + d + e
  {
  }

  lemma LinkOf(c: Commit, slug: string) returns (link: string)
    ensures RenderEntry(c, slug) == "* " + Body(c, slug) + " ([" + c.sha + link
  {
    link := "](https://github.com/" + slug + "/commit/" + c.full + "))";
  }

  lemma RenderMentions(c: Commit, slug: string)
    ensures Contains(RenderEntry(c, slug), Needle(c))
  {
    var body := Body(c, slug);
    var link := LinkOf(c, slug);
    FiveParts("* ", body, " ([", c.sha, link);
    if c.pr.Some? {
      BodyMentions(c, slug);
      ContainsWithin("* ", body, " ([" + c.sha + link, Needle(c));
    } else {
      ContainsMiddle("* " + body + " ([", c.sha, link);
    }
  }

  /** The line ends with the title of its kind's section, or with the kind if there is none. */
  lemma EntryEndsWithTitle(c: Commit, forge: Forge)
    ensures c.kind in forge.titles ==> HasSuffix(EntryLine(c, forge), "_" + forge.titles[c.kind] + "_")
    ensures c.kind !in forge.titles ==> HasSuffix(EntryLine(c, forge), "_" + c.kind + "_")
  {
    var title := if c.kind in forge.titles then forge.titles[c.kind] else c.kind;
    var front := RenderEntry(c, forge.slug) + " \U{2014} ";
    assert EntryLine(c, forge) == front + ("_" + title + "_");
  }

  lemma {:induction false} EndedMentions(lines: seq<string>, i: nat, x: string)
    requires i < |lines| && Contains(lines[i], x)
    ensures Contains(Ended(lines), x)
  {
    if i == 0 {
      assert "" + lines[0] + ("\n" + Ended(lines[1..])) == Ended(lines);
      ContainsWithin("", lines[0], "\n" + Ended(lines[1..]), x);
    } else {
      EndedMentions(lines[1..], i - 1, x);
      assert (lines[0] + "\n") + Ended(lines[1..]) + "" == Ended(lines);
      ContainsWithin(lines[0] + "\n", Ended(lines[1..]), "", x);
    }
  }

  /** Trailing newlines hold no mention. */
  lemma TrimKeepsMentions(section: string, x: string)
    requires Contains(section, x) && x != "" && OneLine(x)
    ensures Contains(TrimNewlines(section), x)
  {
    var kept := TrimNewlines(section);
    var i :| 0 <= i <= |section| && OccursAt(section, x, i);
    assert section[i..][|x| - 1] == x[|x| - 1] == section[i + |x| - 1];
    assert i + |x| <= |kept|;
    assert kept == section[..|kept|];
    assert kept[i..][..|x|] == section[i..][..|x|] == x;
    assert OccursAt(kept, x, i);
  }

  // ----- The repair converges -----

  lemma {:induction false} MissingMembers(section: string, types: set<string>, commits: seq<Commit>, c: Commit)
    ensures c in MissingIn(section, types, commits) <==> c in commits && IsMissing(section, types, c)
  {
    if commits != [] {
      var init := commits[..|commits| - 1];
      MissingMembers(section, types, init, c);
      assert commits == init + [commits[|commits| - 1]];
    }
  }

  predicate InWord(c: char) {
    c in "abcdefghijklmnopqrstuvwxyz" || c in "ABCDEFGHIJKLMNOPQRSTUVWXYZ" || c in "0123456789" || c == '_'
  }

  /** The word release, and then nothing or no word character. */
  ghost predicate ReleaseSummary(summary: string) {
    exists rest :: Parts(summary, "", "release", rest) && (rest == "" || !InWord(rest[0]))
  }

  lemma SmallLetters(c: char)
    ensures 'a' <= c <= 'z' <==> c in "abcdefghijklmnopqrstuvwxyz"
  {
  }

  lemma CapitalLetters(c: char)
    ensures 'A' <= c <= 'Z' <==> c in "ABCDEFGHIJKLMNOPQRSTUVWXYZ"
  {
  }

  lemma WordCharExactly(c: char)
    ensures IsWordChar(c) <==> InWord(c)
  {
    SmallLetters(c);
    CapitalLetters(c);
  }

  lemma ReleaseExactly(c: Commit)
    ensures IsRelease(c) <==> c.kind == "chore" && c.scope == Some("main") && !c.breaking && ReleaseSummary(c.summary)
  {
    var summary := c.summary;
    assert "" + "release" == "release";
    if HasPrefix(summary, "release") {
      assert Parts(summary, "", "release", summary[7..]);
      if |summary| > 7 {
        WordCharExactly(summary[7]);
      }
    }
    if rest :| Parts(summary, "", "release", rest) && (rest == "" || !InWord(rest[0])) {
      assert rest != "" ==> summary[7] == rest[0];
      assert HasPrefix(summary, "release");
    }
  }

  /** A pull request is recognised by its number after a hash sign, a commit without one by its abbreviated hash. */
  ghost predicate MentionedIn(section: string, c: Commit) {
    match c.pr
    case Some(number) => exists a, b :: Parts(section, a, "#" + number, b)
    case None => exists a, b :: Parts(section, a, c.sha, b)
  }

  /** Which commits are reported: those given whose kind is one of the checked types, that are not the release's own
      commit, and that the section does not mention. */
  lemma MissingExactly(section: string, types: set<string>, commits: seq<Commit>, c: Commit)
    ensures c in MissingIn(section, types, commits) <==>
            && c in commits && c.kind != "" && c.kind in types
            && !(c.kind == "chore" && c.scope == Some("main") && !c.breaking && ReleaseSummary(c.summary))
            && !MentionedIn(section, c)
  {
    MissingMembers(section, types, commits, c);
    ContainsExactly(section, if c.pr.Some? then "#" + c.pr.value else c.sha);
    ReleaseExactly(c);
  }

  lemma {:induction false} NoneMissing(section: string, types: set<string>, commits: seq<Commit>)
    requires forall i :: 0 <= i < |commits| ==> !IsMissing(section, types, commits[i])
    ensures MissingIn(section, types, commits) == []
  {
    if commits != [] {
      NoneMissing(section, types, commits[..|commits| - 1]);
    }
  }

  lemma KeptMentions(section: string, lines: seq<string>, x: string)
    requires Contains(section, x) && x != "" && OneLine(x)
    ensures Contains(Extended(section, lines), x)
  {
    var kept := TrimNewlines(section);
    TrimKeepsMentions(section, x);
    assert "" + kept + ("\n" + Ended(lines)) == Extended(section, lines);
    ContainsWithin("", kept, "\n" + Ended(lines), x);
  }

  lemma AddedMentions(section: string, lines: seq<string>, i: nat, x: string)
    requires i < |lines| && Contains(lines[i], x)
    ensures Contains(Extended(section, lines), x)
  {
    var kept := TrimNewlines(section);
    EndedMentions(lines, i, x);
    assert (kept + "\n") + Ended(lines) + "" == Extended(section, lines);
    ContainsWithin(kept + "\n", Ended(lines), "", x);
  }

  lemma ExtendedMentions(section: string, missing: seq<Commit>, forge: Forge, c: Commit)
    requires CleanCommit(c) && (Contains(section, Needle(c)) || c in missing)
    ensures Contains(Extended(section, FixLines(missing, forge)), Needle(c))
  {
    var lines := FixLines(missing, forge);
    if Contains(section, Needle(c)) {
      KeptMentions(section, lines, Needle(c));
    } else {
      var i :| 0 <= i < |missing| && missing[i] == c;
      EntryMentions(c, forge);
      assert lines[|NOTE| + i] == EntryLine(c, forge);
      AddedMentions(section, lines, |NOTE| + i, Needle(c));
    }
  }

  /** Applying the fix and running the check again on the same commits finds nothing missing; the old section is kept up
      to its trailing newlines, and nothing before or after the section changes. */
  lemma FixConverges(text: string, version: string, types: set<string>, commits: seq<Commit>, forge: Forge)
    requires CutFor(text, version).Cut? && CleanForge(forge)
    requires forall i :: 0 <= i < |commits| ==> CleanCommit(commits[i])
    ensures var c := CutFor(text, version);
            var missing := MissingIn(c.section, types, commits);
            var fixed := CutFor(Repaired(text, version, FixLines(missing, forge)), version);
            && fixed.Cut? && fixed.before == c.before && fixed.after == c.after
            && TrimNewlines(c.section) <= fixed.section
            && MissingIn(fixed.section, types, commits) == []
  {
    var c := CutFor(text, version);
    var missing := MissingIn(c.section, types, commits);
    forall i | 0 <= i < |missing| ensures CleanCommit(missing[i]) {
      MissingMembers(c.section, types, commits, missing[i]);
    }
    FixLinesPlain(missing, forge);
    RepairedCut(text, version, FixLines(missing, forge));
    var section := Extended(c.section, FixLines(missing, forge));
    forall i | 0 <= i < |commits| ensures !IsMissing(section, types, commits[i]) {
      MissingMembers(c.section, types, commits, commits[i]);
      if Contains(c.section, Needle(commits[i])) || commits[i] in missing {
        ExtendedMentions(c.section, missing, forge, commits[i]);
      }
    }
    NoneMissing(section, types, commits);
  }

  /** The fix leaves the section of every other version as it was, but for the one version whose heading is glued to
      the repaired one and has no section before it: that version gets the text behind its heading. */
  lemma FixOtherSections(text: string, version: string, types: set<string>, commits: seq<Commit>, forge: Forge,
                         other: string)
    requires CutFor(text, version).Cut? && CleanForge(forge)
    requires forall i :: 0 <= i < |commits| ==> CleanCommit(commits[i])
    requires IsVersion(version) && IsVersion(other) && other != version
    ensures var c := CutFor(text, version);
            SectionOf(Repaired(text, version, FixLines(MissingIn(c.section, types, commits), forge)), other) ==
            if Surfaces(text, version, other) then Present(SplitRest(c.after[|Heading(other)|..]).0)
            else SectionOf(text, other)
  {
    var c := CutFor(text, version);
    var missing := MissingIn(c.section, types, commits);
    forall i | 0 <= i < |missing| ensures CleanCommit(missing[i]) {
      MissingMembers(c.section, types, commits, missing[i]);
    }
    FixLinesPlain(missing, forge);
    OtherSections(text, version, FixLines(missing, forge), other);
  }

  /** It does happen, whichever commits are missing: in this text the second heading does not start a line, so its
      version has no section until the fix of the first puts it on a line of its own. */
  lemma GluedHeadingAppears(missing: seq<Commit>, forge: Forge)
    requires CleanForge(forge) && forall i :: 0 <= i < |missing| ==> CleanCommit(missing[i])
    ensures var text := Heading("1") + Heading("2");
            && CutFor(text, "1") == Cut(Heading("1"), "", Heading("2"))
            && SectionOf(text, "2") == Absent
            && SectionOf(Repaired(text, "1", FixLines(missing, forge)), "2") == Present("")
  {
    GluedCut();
    NoSecondHeading();
    FixLinesPlain(missing, forge);
    GluedAfter(FixLines(missing, forge));
  }

  lemma GluedCut()
    ensures CutFor(Heading("1") + Heading("2"), "1") == Cut(Heading("1"), "", Heading("2"))
    ensures FindHead(Heading("1") + Heading("2"), Heading("1"), true) == 0
  {
    var one, two := Heading("1"), Heading("2");
    var text := one + two;
    SplitAtOnce(two);
    assert text[0..] == text && one <= text;
    FoundAt(text, one, true, 0);
    assert text[|one|..] == two && text[..|one|] == one;
  }

  lemma GluedAfter(lines: seq<string>)
    requires lines != [] && forall i :: 0 <= i < |lines| ==> PlainLine(lines[i])
    requires CutFor(Heading("1") + Heading("2"), "1") == Cut(Heading("1"), "", Heading("2"))
    ensures SectionOf(Repaired(Heading("1") + Heading("2"), "1", lines), "2") == Present("")
  {
    GluedCut();
    OtherSections(Heading("1") + Heading("2"), "1", lines, "2");
    assert Heading("2")[|Heading("2")|..] == "";
    assert SplitRest("") == ("", "");
  }

  lemma SplitAtOnce(rest: string)
    requires ANY <= rest
    ensures SplitRest(rest) == ("", rest)
  {
    assert rest[0..] == rest;
    FoundAt(rest, ANY, true, 0);
  }

  lemma NoSecondHeading()
    ensures SectionOf(Heading("1") + Heading("2"), "2") == Absent
  {
    var text := Heading("1") + Heading("2");
    assert text == "## [1]## [2]";
    forall j | 0 <= j <= |text| ensures !HeadAt(text, Heading("2"), true, j) {
      assert j > 0 ==> text[j - 1] != '\n';
      assert text[4] != Heading("2")[4];
      assert text[0..] == text;
    }
    FoundNowhere(text, Heading("2"), true);
  }
}
