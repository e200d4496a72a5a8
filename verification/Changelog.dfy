/** The changelog gate and its repair: sections are found by headings at line starts, and commits missing from a
    release's section are appended to it. */
module Changelog {
  import opened Text

  // ----- Headings -----

  /** Whether head stands at i and i is the start of a line; at 0 this is the caller's to say. */
  predicate HeadAt(s: string, head: string, start: bool, i: int) {
    0 <= i <= |s| && (if i == 0 then start else s[i - 1] == '\n') && head <= s[i..]
  }

  /** The first line start where head stands, or one past the length. */
  function FindHead(s: string, head: string, start: bool): (i: nat)
    ensures i <= |s| + 1
    ensures i <= |s| ==> i + |head| <= |s|
  {
    if start && head <= s then 0
    else if s == "" then 1
    else 1 + FindHead(s[1..], head, s[0] == '\n')
  }

  lemma HeadAtTail(s: string, head: string, start: bool, i: int)
    requires s != "" && 1 <= i
    ensures HeadAt(s, head, start, i) <==> HeadAt(s[1..], head, s[0] == '\n', i - 1)
  {
    if i <= |s| {
      assert s[1..][i - 1..] == s[i..];
    }
  }

  lemma {:induction false} FindHeadIsFirst(s: string, head: string, start: bool, j: int)
    ensures FindHead(s, head, start) <= |s| ==> HeadAt(s, head, start, FindHead(s, head, start))
    ensures HeadAt(s, head, start, j) ==> FindHead(s, head, start) <= j
  {
    assert s[0..] == s;
    if !(start && head <= s) && s != "" {
      FindHeadIsFirst(s[1..], head, s[0] == '\n', j - 1);
      HeadAtTail(s, head, start, FindHead(s, head, start));
      if j >= 1 {
        HeadAtTail(s, head, start, j);
      }
    }
  }

  /** The first heading is at i when one is there and none before. */
  lemma FoundAt(s: string, head: string, start: bool, i: nat)
    requires HeadAt(s, head, start, i) && forall j :: 0 <= j < i ==> !HeadAt(s, head, start, j)
    ensures FindHead(s, head, start) == i
  {
    FindHeadIsFirst(s, head, start, i);
  }

  lemma FoundNowhere(s: string, head: string, start: bool)
    requires forall j :: 0 <= j <= |s| ==> !HeadAt(s, head, start, j)
    ensures FindHead(s, head, start) == |s| + 1
  {
    FindHeadIsFirst(s, head, start, 0);
  }

  const ANY := "## ["

  function Heading(version: string): string {
    ANY + version + "]"
  }

  /** Versions as they appear between the brackets. */
  predicate IsVersion(v: string) {
    ']' !in v && '\n' !in v
  }

  // ----- Sections -----

  /** A text cut around the section of one version: everything through its heading, the section, and the rest. */
  datatype Cut = NoSection | Cut(before: string, section: string, after: string)

  /** What follows a heading, split at the next heading; the first character counts as a line start here. */
  function SplitRest(rest: string): (string, string) {
    var n := FindHead(rest, ANY, true);
    if n <= |rest| then (rest[..n], rest[n..]) else (rest, "")
  }

  /** The cut at a heading found at i. */
  function CutHere(text: string, head: string, i: nat): Cut
    requires i + |head| <= |text|
  {
    var (section, after) := SplitRest(text[i + |head|..]);
    Cut(text[..i + |head|], section, after)
  }

  function CutFor(text: string, version: string): Cut {
    var i := FindHead(text, Heading(version), true);
    if i > |text| then NoSection else CutHere(text, Heading(version), i)
  }

  function TrimNewlines(s: string): (r: string)
    ensures r <= s && (r == "" || r[|r| - 1] != '\n')
    ensures forall i :: |r| <= i < |s| ==> s[i] == '\n'
  {
    if s != "" && s[|s| - 1] == '\n' then TrimNewlines(s[..|s| - 1]) else s
  }

  function DropNewlines(s: string): string {
    if s != "" && s[0] == '\n' then DropNewlines(s[1..]) else s
  }

  function Join(lines: seq<string>): string
    requires lines != []
  {
    if |lines| == 1 then lines[0] else lines[0] + "\n" + Join(lines[1..])
  }

  /** The repair: the lines go to the end of the version's section. */
  function Repaired(text: string, version: string, lines: seq<string>): string
    requires CutFor(text, version).Cut? && lines != []
  {
    var c := CutFor(text, version);
    TrimNewlines(c.before + c.section) + "\n" + Join(lines) + "\n" + DropNewlines(c.after)
  }

  // ----- Blocks without headings -----

  /** No line of s is a section heading. */
  ghost predicate Quiet(s: string) {
    forall i :: !HeadAt(s, ANY, true, i)
  }

  lemma QuietConcat(a: string, b: string)
    requires Quiet(a) && Quiet(b) && a != "" && a[|a| - 1] == '\n'
    ensures Quiet(a + b)
  {
    var s := a + b;
    forall i ensures !HeadAt(s, ANY, true, i) {
      if HeadAt(s, ANY, true, i) {
        if i < |a| {
          HeadInside(a, b, i);
        } else {
          assert s[i..] == b[i - |a|..];
          assert HeadAt(b, ANY, true, i - |a|);
        }
      }
    }
  }

  /** A heading that starts in a, where a ends its line, lies in a. */
  lemma HeadInside(a: string, b: string, i: int)
    requires a != "" && a[|a| - 1] == '\n' && 0 <= i < |a| && HeadAt(a + b, ANY, true, i)
    ensures HeadAt(a, ANY, true, i)
  {
    var s := a + b;
    assert s[|a| - 1] == '\n';
    assert forall k :: 0 <= k < 4 ==> s[i + k] == s[i..][k] == ANY[k];
    assert i + 4 <= |a|;
    assert s[i..i + 4] == a[i..i + 4] == ANY;
  }

  lemma HeadOfLine(line: string, i: int)
    requires '\n' !in line && HeadAt(line + "\n", ANY, true, i)
    ensures ANY <= line
  {
    var s := line + "\n";
    assert s[|s| - 1] == '\n';
    assert forall k :: 0 <= k < 4 ==> s[i + k] == s[i..][k] == ANY[k];
    assert i + 4 <= |line|;
    assert i == 0;
    assert line[..4] == s[..4] == ANY;
  }

  lemma QuietLine(line: string)
    requires '\n' !in line && !(ANY <= line)
    ensures Quiet(line + "\n")
  {
    forall i ensures !HeadAt(line + "\n", ANY, true, i) {
      if HeadAt(line + "\n", ANY, true, i) {
        HeadOfLine(line, i);
      }
    }
  }

  /** Lines, each ended. */
  function Ended(lines: seq<string>): string {
    if lines == [] then "" else lines[0] + "\n" + Ended(lines[1..])
  }

  predicate PlainLine(line: string) {
    '\n' !in line && !(ANY <= line)
  }

  lemma {:induction false} QuietLines(lines: seq<string>)
    requires forall i :: 0 <= i < |lines| ==> PlainLine(lines[i])
    ensures Quiet(Ended(lines))
  {
    if lines != [] {
      QuietLine(lines[0]);
      QuietLines(lines[1..]);
      QuietConcat(lines[0] + "\n", Ended(lines[1..]));
    }
  }

  lemma {:induction false} JoinIsEnded(lines: seq<string>)
    requires lines != []
    ensures Join(lines) + "\n" == Ended(lines)
    ensures Ended(lines) != "" && Ended(lines)[|Ended(lines)| - 1] == '\n'
  {
    if |lines| == 1 {
      assert Ended(lines[1..]) == "";
    } else {
      JoinIsEnded(lines[1..]);
      assert Join(lines) + "\n" == lines[0] + "\n" + (Join(lines[1..]) + "\n");
    }
  }

  // ----- The shape of a cut -----

  /** A section in place: its heading, at a line start, ends what comes before; no section heading stands inside it; and
      the rest, if any, begins with one at a line start. */
  ghost predicate InPlace(pre: string, section: string, after: string) {
    && (pre == "" || pre[|pre| - 1] == '\n')
    && (forall i :: 0 <= i < |section| ==> !HeadAt(section + after, ANY, true, i))
    && (after == "" || HeadAt(section + after, ANY, true, |section|))
  }

  lemma SplitRestShape(rest: string)
    ensures var (section, after) := SplitRest(rest);
            && rest == section + after
            && (forall i :: 0 <= i < |section| ==> !HeadAt(section + after, ANY, true, i))
            && (after == "" || HeadAt(section + after, ANY, true, |section|))
  {
    var (section, after) := SplitRest(rest);
    assert rest == section + after;
    FindHeadIsFirst(rest, ANY, true, 0);
    forall i | 0 <= i < |section| ensures !HeadAt(rest, ANY, true, i) {
      FindHeadIsFirst(rest, ANY, true, i);
    }
  }

  lemma SplitRestFinds(section: string, after: string)
    requires forall i :: 0 <= i < |section| ==> !HeadAt(section + after, ANY, true, i)
    requires after == "" || HeadAt(section + after, ANY, true, |section|)
    ensures SplitRest(section + after) == (section, after)
  {
    var rest := section + after;
    if after == "" {
      assert rest == section;
      FoundNowhere(rest, ANY, true);
    } else {
      FoundAt(rest, ANY, true, |section|);
      assert rest[..|section|] == section && rest[|section|..] == after;
    }
  }

  lemma FirstHead(text: string, head: string)
    requires FindHead(text, head, true) <= |text|
    ensures var i := FindHead(text, head, true);
            && text[..i + |head|] == text[..i] + head
            && (i == 0 || text[i - 1] == '\n')
  {
    var i := FindHead(text, head, true);
    FindHeadIsFirst(text, head, true, i);
    assert text[i..][..|head|] == head;
  }

  lemma NoEarlierHead(text: string, head: string, j: int)
    requires 0 <= j < FindHead(text, head, true)
    ensures !HeadAt(text, head, true, j)
  {
    FindHeadIsFirst(text, head, true, j);
  }

  lemma CutHead(text: string, version: string)
    requires CutFor(text, version).Cut?
    ensures var pre, h := text[..FindHead(text, Heading(version), true)], Heading(version);
            && CutFor(text, version).before == pre + h
            && (pre == "" || pre[|pre| - 1] == '\n')
            && forall j :: 0 <= j < |pre| ==> !HeadAt(text, h, true, j)
  {
    var h := Heading(version);
    FirstHead(text, h);
    forall j | 0 <= j < FindHead(text, h, true) {
      NoEarlierHead(text, h, j);
    }
  }

  lemma CutHereRest(text: string, head: string, i: nat)
    requires i + |head| <= |text|
    ensures var c := CutHere(text, head, i);
            && text == c.before + c.section + c.after
            && (forall i :: 0 <= i < |c.section| ==> !HeadAt(c.section + c.after, ANY, true, i))
            && (c.after == "" || HeadAt(c.section + c.after, ANY, true, |c.section|))
  {
    var c, n := CutHere(text, head, i), i + |head|;
    SplitRestShape(text[n..]);
    Rejoin(text, n, c.section, c.after);
  }

  lemma Rejoin(text: string, n: nat, x: string, y: string)
    requires n <= |text| && text[n..] == x + y
    ensures text == text[..n] + x + y
  {
    assert text == text[..n] + text[n..];
  }

  lemma CutRest(text: string, version: string)
    requires CutFor(text, version).Cut?
    ensures var c := CutFor(text, version);
            && text == c.before + c.section + c.after
            && (forall i :: 0 <= i < |c.section| ==> !HeadAt(c.section + c.after, ANY, true, i))
            && (c.after == "" || HeadAt(c.section + c.after, ANY, true, |c.section|))
  {
    CutHereRest(text, Heading(version), FindHead(text, Heading(version), true));
  }

  lemma CutInPlace(text: string, version: string) returns (pre: string)
    requires CutFor(text, version).Cut?
    ensures var c := CutFor(text, version);
            && c.before == pre + Heading(version) && text == c.before + c.section + c.after
            && InPlace(pre, c.section, c.after)
            && forall j :: 0 <= j < |pre| ==> !HeadAt(text, Heading(version), true, j)
  {
    CutHead(text, version);
    CutRest(text, version);
    pre := text[..FindHead(text, Heading(version), true)];
  }

  /** Texts with a common beginning have the same headings in it. */
  lemma SameBeginning(s: string, t: string, head: string, start: bool, j: int, n: nat)
    requires n <= |s| && n <= |t| && s[..n] == t[..n] && 0 <= j && j + |head| <= n && head != ""
    ensures HeadAt(s, head, start, j) <==> HeadAt(t, head, start, j)
  {
    assert s[j..j + |head|] == s[..n][j..j + |head|] == t[..n][j..j + |head|] == t[j..j + |head|];
    assert head <= s[j..] <==> s[j..j + |head|] == head;
    assert head <= t[j..] <==> t[j..j + |head|] == head;
    if j > 0 {
      assert s[j - 1] == s[..n][j - 1] == t[..n][j - 1] == t[j - 1];
    }
  }

  /** Conversely, a section in place under the first heading of its version is what the cut finds. */
  lemma CutFinds(pre: string, version: string, section: string, after: string)
    requires InPlace(pre, section, after)
    requires forall j :: 0 <= j < |pre| ==> !HeadAt(pre + Heading(version) + section + after, Heading(version), true, j)
    ensures CutFor(pre + Heading(version) + section + after, version) == Cut(pre + Heading(version), section, after)
  {
    var h, rest := Heading(version), section + after;
    var text := pre + h + section + after;
    assert text == pre + h + rest;
    HeadAfter(pre, h, rest);
    FoundAt(text, h, true, |pre|);
    assert text[|pre| + |h|..] == rest && text[..|pre| + |h|] == pre + h;
    SplitRestFinds(section, after);
  }

  lemma HeadAfter(pre: string, head: string, rest: string)
    requires pre == "" || pre[|pre| - 1] == '\n'
    ensures HeadAt(pre + head + rest, head, true, |pre|)
  {
    assert (pre + head + rest)[|pre|..] == head + rest;
  }

  // ----- The repaired section -----

  lemma {:induction false} TrimAfter(a: string, b: string)
    requires a != "" && a[|a| - 1] != '\n'
    ensures TrimNewlines(a + b) == a + TrimNewlines(b)
  {
    var s := a + b;
    if b == "" {
      assert s == a;
    } else if b[|b| - 1] == '\n' {
      assert s[..|s| - 1] == a + b[..|b| - 1];
      TrimAfter(a, b[..|b| - 1]);
    }
  }

  /** The section after the repair: the old one without trailing newlines, and the lines. */
  function Extended(section: string, lines: seq<string>): string {
    TrimNewlines(section) + "\n" + Ended(lines)
  }

  lemma TrimmedQuiet(section: string, after: string)
    requires forall i :: 0 <= i < |section| ==> !HeadAt(section + after, ANY, true, i)
    ensures Quiet(TrimNewlines(section) + "\n")
  {
    var kept := TrimNewlines(section);
    var s, rest := kept + "\n", section + after;
    forall i ensures !HeadAt(s, ANY, true, i) {
      if HeadAt(s, ANY, true, i) {
        ShortOfNewline(kept, i);
        assert s[..|kept|] == kept == rest[..|kept|];
        SameBeginning(s, rest, ANY, true, i, |kept|);
      }
    }
  }

  lemma ShortOfNewline(kept: string, i: int)
    requires HeadAt(kept + "\n", ANY, true, i)
    ensures 0 <= i && i + 4 <= |kept|
  {
    var s := kept + "\n";
    assert s[|s| - 1] == '\n';
    assert forall k :: 0 <= k < 4 ==> s[i + k] == s[i..][k] == ANY[k];
  }

  lemma ExtendedInPlace(pre: string, section: string, after: string, lines: seq<string>)
    requires InPlace(pre, section, after)
    requires lines != [] && forall i :: 0 <= i < |lines| ==> PlainLine(lines[i])
    ensures InPlace(pre, Extended(section, lines), after)
    ensures Extended(section, lines) != "" && Extended(section, lines)[|Extended(section, lines)| - 1] == '\n'
  {
    var more := Extended(section, lines);
    TrimmedQuiet(section, after);
    QuietLines(lines);
    JoinIsEnded(lines);
    QuietConcat(TrimNewlines(section) + "\n", Ended(lines));
    assert more == (TrimNewlines(section) + "\n") + Ended(lines);
    forall i | 0 <= i < |more| ensures !HeadAt(more + after, ANY, true, i) {
      if HeadAt(more + after, ANY, true, i) {
        HeadInside(more, after, i);
      }
    }
    if after != "" {
      assert (section + after)[|section|..] == after == (more + after)[|more|..];
    }
  }

  lemma Regroup(a: string, b: string, c: string, d: string)
    ensures (a + b) + "\n" + c + "\n" + d == a + (b + "\n" + (c + "\n")) + d
  {
  }

  lemma AfterKept(section: string, after: string)
    requires after == "" || HeadAt(section + after, ANY, true, |section|)
    ensures DropNewlines(after) == after
  {
    if after != "" {
      assert (section + after)[|section|..] == after;
      assert after[0] == ANY[0];
    }
  }

  lemma RepairedText(text: string, version: string, lines: seq<string>)
    requires CutFor(text, version).Cut? && lines != []
    ensures var c := CutFor(text, version);
            Repaired(text, version, lines) == c.before + Extended(c.section, lines) + c.after
  {
    var c := CutFor(text, version);
    var pre := CutInPlace(text, version);
    assert c.before[|c.before| - 1] == ']';
    TrimAfter(c.before, c.section);
    JoinIsEnded(lines);
    AfterKept(c.section, c.after);
    Regroup(c.before, TrimNewlines(c.section), Join(lines), c.after);
  }

  lemma HeadsBefore(pre: string, head: string, a: string, b: string, j: int)
    requires 0 <= j < |pre| && head != ""
    ensures HeadAt(pre + head + a, head, true, j) <==> HeadAt(pre + head + b, head, true, j)
  {
    var s, t, n := pre + head + a, pre + head + b, |pre + head|;
    assert s[..n] == pre + head == t[..n];
    SameBeginning(s, t, head, true, j, n);
  }

  lemma Grouped(a: string, b: string, c: string, d: string)
    ensures a + b + c + d == a + b + (c + d)
  {
  }

  /** The repair changes the version's section and nothing around it: cutting the repaired text finds the same heading
      and the same rest, and between them the old section, without its trailing newlines, followed by the lines. */
  lemma RepairedCut(text: string, version: string, lines: seq<string>)
    requires CutFor(text, version).Cut?
    requires lines != [] && forall i :: 0 <= i < |lines| ==> PlainLine(lines[i])
    ensures var c := CutFor(text, version);
            CutFor(Repaired(text, version, lines), version) == Cut(c.before, Extended(c.section, lines), c.after)
  {
    var c, h := CutFor(text, version), Heading(version);
    var pre := CutInPlace(text, version);
    var more := Extended(c.section, lines);
    ExtendedInPlace(pre, c.section, c.after, lines);
    RepairedText(text, version, lines);
    Grouped(pre, h, c.section, c.after);
    Grouped(pre, h, more, c.after);
    forall j | 0 <= j < |pre| ensures !HeadAt(pre + h + more + c.after, h, true, j) {
      HeadsBefore(pre, h, c.section + c.after, more + c.after, j);
    }
    CutFinds(pre, version, more, c.after);
  }

  // ----- The other sections -----

  /** Headings of different versions do not stand at the same place. */
  lemma HeadingsDiffer(s: string, v: string, w: string)
    requires IsVersion(v) && IsVersion(w) && Heading(v) <= s && Heading(w) <= s
    ensures v == w
  {
    assert forall k :: 0 <= k < |v| ==> s[4 + k] == v[k];
    assert forall k :: 0 <= k < |w| ==> s[4 + k] == w[k];
    assert s[4 + |v|] == ']' && s[4 + |w|] == ']';
    assert |v| == |w|;
  }

  lemma HeadingOneLine(v: string)
    requires IsVersion(v)
    ensures '\n' !in Heading(v) && ANY <= Heading(v)
  {
  }

  /** No heading of another version stands between the start of this version's heading and the end of its section. */
  lemma NoneInside(pre: string, v: string, section: string, after: string, w: string, j: int)
    requires InPlace(pre, section, after) && IsVersion(v) && IsVersion(w) && v != w
    requires |pre| <= j < |pre| + |Heading(v)| + |section|
    ensures !HeadAt(pre + Heading(v) + (section + after), Heading(w), true, j)
  {
    var h, g, rest := Heading(v), Heading(w), section + after;
    var s := pre + h + rest;
    var n := |pre| + |h|;
    HeadingOneLine(v);
    HeadingOneLine(w);
    if j == |pre| {
      assert s[j..] == h + rest;
      if g <= s[j..] {
        HeadingsDiffer(s[j..], v, w);
      }
    } else if j <= n {
      assert s[j - 1] == h[j - 1 - |pre|];
    } else {
      assert s[j..] == rest[j - n..] && s[j - 1] == rest[j - n - 1];
      assert HeadAt(s, g, true, j) ==> HeadAt(rest, ANY, true, j - n);
    }
  }

  /** A one-line heading that starts before a line start ends before it. */
  lemma EndsBefore(s: string, head: string, j: int, n: nat)
    requires '\n' !in head && 0 <= j < n <= |s| && s[n - 1] == '\n' && HeadAt(s, head, true, j)
    ensures j + |head| < n
  {
    assert forall k :: 0 <= k < |head| ==> s[j + k] == s[j..][k] == head[k];
  }

  /** The text around a section. */
  function Around(pre: string, v: string, section: string, after: string): string {
    pre + Heading(v) + (section + after)
  }

  predicate EndsLine(s: string) {
    s != "" && s[|s| - 1] == '\n'
  }

  /** Two sections that can stand in the same place without any difference to w: both end their last line, or what
      follows them does not begin with w's heading. */
  ghost predicate Exchangeable(pre: string, x: string, y: string, after: string, w: string) {
    && InPlace(pre, x, after) && InPlace(pre, y, after)
    && ((EndsLine(x) && EndsLine(y)) || !(Heading(w) <= after))
  }

  /** Where a place of the first text is found in the second. */
  function Moved(pre: string, x: string, y: string, j: int): int {
    if j < |pre| then j else j - |x| + |y|
  }

  lemma HeadsPast(a: string, x: string, y: string, after: string, head: string, k: nat)
    requires ((EndsLine(x) && EndsLine(y)) || !(head <= after)) && k <= |after|
    requires HeadAt(a + (x + after), head, true, |a| + |x| + k)
    ensures HeadAt(a + (y + after), head, true, |a| + |y| + k)
  {
    var s, t := a + (x + after), a + (y + after);
    var i, j := |a| + |x| + k, |a| + |y| + k;
    assert s[i..] == after[k..] == t[j..];
    if k > 0 {
      assert s[i - 1] == after[k - 1] == t[j - 1];
    } else {
      assert t[j - 1] == y[|y| - 1];
    }
  }

  /** Exchanging the section moves the other versions' headings with the text around it and adds none. */
  lemma HeadsCorrespond(pre: string, v: string, x: string, y: string, after: string, w: string, j: int)
    requires Exchangeable(pre, x, y, after, w) && IsVersion(v) && IsVersion(w) && v != w
    requires HeadAt(Around(pre, v, x, after), Heading(w), true, j)
    ensures HeadAt(Around(pre, v, y, after), Heading(w), true, Moved(pre, x, y, j))
    ensures j + |Heading(w)| < |pre| || |pre| + |Heading(v)| + |x| <= j
  {
    var s, t, g, n := Around(pre, v, x, after), Around(pre, v, y, after), Heading(w), |pre|;
    HeadingOneLine(w);
    if j < n {
      assert s[n - 1] == pre[n - 1];
      EndsBefore(s, g, j, n);
      assert s[..n] == pre == t[..n];
      SameBeginning(s, t, g, true, j, n);
    } else {
      if j < n + |Heading(v)| + |x| {
        NoneInside(pre, v, x, after, w, j);
      }
      var k := j - n - |Heading(v)| - |x|;
      assert s[j..] == after[k..];
      HeadsPast(pre + Heading(v), x, y, after, g, k);
    }
  }

  lemma FindMoves(pre: string, v: string, x: string, y: string, after: string, w: string)
    requires Exchangeable(pre, x, y, after, w) && IsVersion(v) && IsVersion(w) && v != w
    requires FindHead(Around(pre, v, x, after), Heading(w), true) <= |Around(pre, v, x, after)|
    ensures var i := FindHead(Around(pre, v, x, after), Heading(w), true);
            && FindHead(Around(pre, v, y, after), Heading(w), true) == Moved(pre, x, y, i)
            && (i + |Heading(w)| < |pre| || |pre| + |Heading(v)| + |x| <= i)
  {
    var s, t, g := Around(pre, v, x, after), Around(pre, v, y, after), Heading(w);
    var i := FindHead(s, g, true);
    FindHeadIsFirst(s, g, true, i);
    HeadsCorrespond(pre, v, x, y, after, w, i);
    var k := Moved(pre, x, y, i);
    forall j | 0 <= j < k ensures !HeadAt(t, g, true, j) {
      if HeadAt(t, g, true, j) {
        HeadsCorrespond(pre, v, y, x, after, w, j);
        FindHeadIsFirst(s, g, true, Moved(pre, y, x, j));
      }
    }
    FoundAt(t, g, true, k);
  }

  lemma FindNowhere(pre: string, v: string, x: string, y: string, after: string, w: string)
    requires Exchangeable(pre, x, y, after, w) && IsVersion(v) && IsVersion(w) && v != w
    requires FindHead(Around(pre, v, x, after), Heading(w), true) > |Around(pre, v, x, after)|
    ensures FindHead(Around(pre, v, y, after), Heading(w), true) > |Around(pre, v, y, after)|
  {
    var s, t, g := Around(pre, v, x, after), Around(pre, v, y, after), Heading(w);
    forall j | 0 <= j <= |t| ensures !HeadAt(t, g, true, j) {
      if HeadAt(t, g, true, j) {
        HeadsCorrespond(pre, v, y, x, after, w, j);
        FindHeadIsFirst(s, g, true, Moved(pre, y, x, j));
      }
    }
    FoundNowhere(t, g, true);
  }

  /** Texts that agree past a heading have the same section before it. */
  lemma SameSection(s: string, t: string, m: nat)
    requires m + 4 <= |s| && m + 4 <= |t| && s[..m + 4] == t[..m + 4] && HeadAt(s, ANY, true, m)
    ensures SplitRest(s).0 == SplitRest(t).0
  {
    var n := FindHead(s, ANY, true);
    FindHeadIsFirst(s, ANY, true, m);
    SameBeginning(s, t, ANY, true, n, m + 4);
    forall j | 0 <= j < n ensures !HeadAt(t, ANY, true, j) {
      NoEarlierHead(s, ANY, j);
      SameBeginning(s, t, ANY, true, j, m + 4);
    }
    FoundAt(t, ANY, true, n);
    assert s[..n] == s[..m + 4][..n] == t[..m + 4][..n] == t[..n];
  }

  datatype Section = Absent | Present(body: string)

  function SectionOf(text: string, version: string): Section {
    var c := CutFor(text, version);
    if c.NoSection? then Absent else Present(c.section)
  }

  lemma SectionBefore(pre: string, v: string, x: string, y: string, after: string, i: nat)
    requires i < |pre| && pre[|pre| - 1] == '\n'
    ensures SplitRest(Around(pre, v, x, after)[i..]).0 == SplitRest(Around(pre, v, y, after)[i..]).0
  {
    var s, t := Around(pre, v, x, after)[i..], Around(pre, v, y, after)[i..];
    var p, h := pre[i..], Heading(v);
    assert s == p + h + (x + after) && t == p + h + (y + after);
    var m := |p|;
    assert s[..m + |h|] == p + h == t[..m + |h|];
    assert s[..m + 4] == s[..m + |h|][..m + 4] && t[..m + 4] == t[..m + |h|][..m + 4];
    assert s[m..] == h + (x + after);
    SameSection(s, t, m);
  }

  lemma SectionPast(pre: string, v: string, x: string, y: string, after: string, i: nat)
    requires |pre| + |Heading(v)| + |x| <= i <= |Around(pre, v, x, after)|
    ensures Around(pre, v, x, after)[i..] == Around(pre, v, y, after)[i - |x| + |y|..]
  {
  }

  lemma SectionFound(s: string, w: string, i: nat)
    requires FindHead(s, Heading(w), true) == i <= |s|
    ensures i + |Heading(w)| <= |s|
    ensures SectionOf(s, w) == Present(CutHere(s, Heading(w), i).section)
  {
  }

  lemma SameSplit(s: string, t: string, w: string, i: nat, j: nat)
    requires FindHead(s, Heading(w), true) == i <= |s| && FindHead(t, Heading(w), true) == j <= |t|
    requires SplitRest(s[i + |Heading(w)|..]).0 == SplitRest(t[j + |Heading(w)|..]).0
    ensures SectionOf(s, w) == SectionOf(t, w)
  {
    SectionFound(s, w, i);
    SectionFound(t, w, j);
  }

  lemma ExchangeKeepsBefore(pre: string, v: string, x: string, y: string, after: string, w: string, i: nat)
    requires InPlace(pre, x, after) && i + |Heading(w)| < |pre|
    requires FindHead(Around(pre, v, x, after), Heading(w), true) == i == FindHead(Around(pre, v, y, after), Heading(w), true)
    ensures SectionOf(Around(pre, v, x, after), w) == SectionOf(Around(pre, v, y, after), w)
  {
    SectionBefore(pre, v, x, y, after, i + |Heading(w)|);
    SameSplit(Around(pre, v, x, after), Around(pre, v, y, after), w, i, i);
  }

  lemma ExchangeKeepsPast(pre: string, v: string, x: string, y: string, after: string, w: string, i: nat)
    requires |pre| + |Heading(v)| + |x| <= i <= |Around(pre, v, x, after)|
    requires FindHead(Around(pre, v, x, after), Heading(w), true) == i
    requires FindHead(Around(pre, v, y, after), Heading(w), true) == i - |x| + |y|
    ensures SectionOf(Around(pre, v, x, after), w) == SectionOf(Around(pre, v, y, after), w)
  {
    SectionPast(pre, v, x, y, after, i + |Heading(w)|);
    SameSplit(Around(pre, v, x, after), Around(pre, v, y, after), w, i, i - |x| + |y|);
  }

  lemma ExchangeKeepsFound(pre: string, v: string, x: string, y: string, after: string, w: string)
    requires Exchangeable(pre, x, y, after, w) && IsVersion(v) && IsVersion(w) && v != w
    requires FindHead(Around(pre, v, x, after), Heading(w), true) <= |Around(pre, v, x, after)|
    ensures SectionOf(Around(pre, v, x, after), w) == SectionOf(Around(pre, v, y, after), w)
  {
    var i := FindHead(Around(pre, v, x, after), Heading(w), true);
    FindMoves(pre, v, x, y, after, w);
    if i + |Heading(w)| < |pre| {
      ExchangeKeepsBefore(pre, v, x, y, after, w, i);
    } else {
      ExchangeKeepsPast(pre, v, x, y, after, w, i);
    }
  }

  lemma ExchangeKeepsSection(pre: string, v: string, x: string, y: string, after: string, w: string)
    requires Exchangeable(pre, x, y, after, w) && IsVersion(v) && IsVersion(w) && v != w
    ensures SectionOf(Around(pre, v, x, after), w) == SectionOf(Around(pre, v, y, after), w)
  {
    if FindHead(Around(pre, v, x, after), Heading(w), true) > |Around(pre, v, x, after)| {
      FindNowhere(pre, v, x, y, after, w);
    } else {
      ExchangeKeepsFound(pre, v, x, y, after, w);
    }
  }

  // ----- A heading glued to the repaired one -----

  /** A heading that starts before a section in place does not depend on that section. */
  lemma HeadsAhead(pre: string, v: string, x: string, y: string, after: string, w: string, j: int)
    requires InPlace(pre, x, after) && IsVersion(w) && 0 <= j < |pre|
    ensures HeadAt(Around(pre, v, x, after), Heading(w), true, j) <==> HeadAt(Around(pre, v, y, after), Heading(w), true, j)
    ensures HeadAt(Around(pre, v, x, after), Heading(w), true, j) ==> j + |Heading(w)| < |pre|
  {
    var s, t, g, n := Around(pre, v, x, after), Around(pre, v, y, after), Heading(w), |pre|;
    HeadingOneLine(w);
    assert s[..n] == pre == t[..n] && s[n - 1] == '\n' == t[n - 1];
    if HeadAt(s, g, true, j) {
      EndsBefore(s, g, j, n);
      SameBeginning(s, t, g, true, j, n);
    }
    if HeadAt(t, g, true, j) {
      EndsBefore(t, g, j, n);
      SameBeginning(s, t, g, true, j, n);
    }
  }

  /** An earlier section of w is found as before, whatever follows. */
  lemma EarlierKept(pre: string, v: string, x: string, y: string, after: string, w: string)
    requires InPlace(pre, x, after) && IsVersion(w)
    requires FindHead(Around(pre, v, x, after), Heading(w), true) < |pre|
    ensures SectionOf(Around(pre, v, x, after), w) == SectionOf(Around(pre, v, y, after), w)
  {
    var s, t, g := Around(pre, v, x, after), Around(pre, v, y, after), Heading(w);
    var i := FindHead(s, g, true);
    FindHeadIsFirst(s, g, true, i);
    HeadsAhead(pre, v, x, y, after, w, i);
    forall j | 0 <= j < i ensures !HeadAt(t, g, true, j) {
      NoEarlierHead(s, g, j);
      HeadsAhead(pre, v, x, y, after, w, j);
    }
    FoundAt(t, g, true, i);
    ExchangeKeepsBefore(pre, v, x, y, after, w, i);
  }

  /** Without an earlier one, the glued heading becomes the first of its version once it has a line of its own. */
  lemma GluedFound(pre: string, v: string, x: string, y: string, after: string, w: string)
    requires InPlace(pre, x, after) && InPlace(pre, y, after) && EndsLine(y)
    requires IsVersion(v) && IsVersion(w) && v != w && Heading(w) <= after
    requires FindHead(Around(pre, v, x, after), Heading(w), true) >= |pre|
    ensures FindHead(Around(pre, v, y, after), Heading(w), true) == |pre| + |Heading(v)| + |y|
  {
    var s, t, g := Around(pre, v, x, after), Around(pre, v, y, after), Heading(w);
    var n := |pre| + |Heading(v)| + |y|;
    forall j | 0 <= j < n ensures !HeadAt(t, g, true, j) {
      if j < |pre| {
        NoEarlierHead(s, g, j);
        HeadsAhead(pre, v, x, y, after, w, j);
      } else {
        NoneInside(pre, v, y, after, w, j);
      }
    }
    assert t[n..] == after && t[n - 1] == y[|y| - 1];
    FoundAt(t, g, true, n);
  }

  lemma SectionAt(t: string, w: string, n: nat, rest: string)
    requires FindHead(t, Heading(w), true) == n <= |t| && t[n + |Heading(w)|..] == rest
    ensures SectionOf(t, w) == Present(SplitRest(rest).0)
  {
    SectionFound(t, w, n);
  }

  lemma PastSection(pre: string, v: string, y: string, after: string, k: nat)
    requires k <= |after|
    ensures Around(pre, v, y, after)[|pre| + |Heading(v)| + |y| + k..] == after[k..]
  {
    var a := pre + Heading(v);
    assert Around(pre, v, y, after) == (a + y) + after;
  }

  lemma GluedSection(pre: string, v: string, x: string, y: string, after: string, w: string)
    requires InPlace(pre, x, after) && InPlace(pre, y, after) && EndsLine(y)
    requires IsVersion(v) && IsVersion(w) && v != w && Heading(w) <= after
    requires FindHead(Around(pre, v, x, after), Heading(w), true) >= |pre|
    ensures SectionOf(Around(pre, v, y, after), w) == Present(SplitRest(after[|Heading(w)|..]).0)
  {
    GluedFound(pre, v, x, y, after, w);
    PastSection(pre, v, y, after, |Heading(w)|);
    SectionAt(Around(pre, v, y, after), w, |pre| + |Heading(v)| + |y|, after[|Heading(w)|..]);
  }

  /** Whether repairing v puts the heading of w on a line of its own: it directly follows v's heading, and w has no
      section before that. */
  predicate Surfaces(text: string, v: string, w: string) {
    var c := CutFor(text, v);
    && c.Cut? && c.section == "" && Heading(w) <= c.after
    && FindHead(text, Heading(w), true) >= FindHead(text, Heading(v), true)
  }

  /** The section of every other version after a repair of v: what it was, except that the one version whose heading
      was glued to v's heading gets the text that follows it. */
  lemma OtherSections(text: string, v: string, lines: seq<string>, w: string)
    requires CutFor(text, v).Cut? && IsVersion(v) && IsVersion(w) && v != w
    requires lines != [] && forall i :: 0 <= i < |lines| ==> PlainLine(lines[i])
    ensures SectionOf(Repaired(text, v, lines), w) ==
            if Surfaces(text, v, w) then Present(SplitRest(CutFor(text, v).after[|Heading(w)|..]).0)
            else SectionOf(text, w)
  {
    var c, h := CutFor(text, v), Heading(v);
    var pre := CutInPlace(text, v);
    var more := Extended(c.section, lines);
    ExtendedInPlace(pre, c.section, c.after, lines);
    RepairedText(text, v, lines);
    Grouped(pre, h, c.section, c.after);
    Grouped(pre, h, more, c.after);
    assert |pre| == FindHead(text, h, true);
    if !(Heading(w) <= c.after) || c.section != "" {
      if c.section != "" && c.after != "" {
        assert (c.section + c.after)[|c.section| - 1] == c.section[|c.section| - 1];
      }
      ExchangeKeepsSection(pre, v, c.section, more, c.after, w);
    } else if FindHead(text, Heading(w), true) < |pre| {
      EarlierKept(pre, v, c.section, more, c.after, w);
    } else {
      GluedSection(pre, v, c.section, more, c.after, w);
    }
  }

  /** At most one version is affected. */
  lemma SurfacesOnce(text: string, v: string, w: string, u: string)
    requires IsVersion(w) && IsVersion(u) && Surfaces(text, v, w) && Surfaces(text, v, u)
    ensures w == u
  {
    HeadingsDiffer(CutFor(text, v).after, w, u);
  }
}
