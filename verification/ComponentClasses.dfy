/** The scanner that collects the classes defined inside a components layer, against the tree of rules it reads. */
module ComponentClasses {
  import opened Text

  /** A block of CSS: declarations ended by a semicolon, rules with a block of their own, and a last piece of text that
      nothing ends. */
  datatype Block =
    | End(trailing: string)
    | Declaration(text: string, rest: Block)
    | Rule(prelude: string, body: Block, rest: Block)

  predicate Plain(s: string) {
    '{' !in s && '}' !in s && ';' !in s
  }

  /** Texts between the structural characters hold none of them. */
  predicate WellFormed(b: Block) {
    match b
    case End(trailing) => Plain(trailing)
    case Declaration(text, rest) => Plain(text) && WellFormed(rest)
    case Rule(prelude, body, rest) => Plain(prelude) && WellFormed(body) && WellFormed(rest)
  }

  function Print(b: Block): string {
    match b
    case End(trailing) => trailing
    case Declaration(text, rest) => text + ";" + Print(rest)
    case Rule(prelude, body, rest) => prelude + "{" + Print(body) + "}" + Print(rest)
  }

  function LastText(b: Block): string {
    match b
    case End(trailing) => trailing
    case Declaration(_, rest) => LastText(rest)
    case Rule(_, _, rest) => LastText(rest)
  }

  /** What Python strips: white space and the four separator controls. */
  predicate IsBlank(c: char) {
    IsSpace(c) || '\U{001C}' <= c <= '\U{001F}'
  }

  function StripLeft(s: string): string {
    if s != "" && IsBlank(s[0]) then StripLeft(s[1..]) else s
  }

  function StripRight(s: string): string {
    if s != "" && IsBlank(s[|s| - 1]) then StripRight(s[..|s| - 1]) else s
  }

  function Strip(s: string): string {
    StripRight(StripLeft(s))
  }

  /** How class names are read off a selector; the regular expression itself is a parameter. */
  type Extract = string -> set<string>

  /** The classes one prelude contributes: none for an at-rule. */
  function ClassesOf(extract: Extract, prelude: string): set<string> {
    var p := Strip(prelude);
    if p != "" && p[0] == '@' then {} else extract(p)
  }

  /** The classes of every rule of a block, at any depth. */
  function Classes(extract: Extract, b: Block): set<string> {
    match b
    case End(_) => {}
    case Declaration(_, rest) => Classes(extract, rest)
    case Rule(prelude, body, rest) => ClassesOf(extract, prelude) + Classes(extract, body) + Classes(extract, rest)
  }

  // ----- What a prelude contributes -----

  predicate AllBlank(s: string) {
    forall i :: 0 <= i < |s| ==> IsBlank(s[i])
  }

  predicate BlankAtEnds(s: string) {
    s != "" && (IsBlank(s[0]) || IsBlank(s[|s| - 1]))
  }

  lemma BlankExactly(c: char)
    ensures IsBlank(c) <==> IsSpace(c) || c in "\U{001C}\U{001D}\U{001E}\U{001F}"
  {
  }

  lemma {:induction false} StripLeftBlank(l: string, s: string)
    requires AllBlank(l) && (s == "" || !IsBlank(s[0]))
    ensures StripLeft(l + s) == s
  {
    if l == "" {
      assert l + s == s;
    } else {
      assert (l + s)[1..] == l[1..] + s;
      StripLeftBlank(l[1..], s);
    }
  }

  lemma {:induction false} StripRightBlank(s: string, r: string)
    requires AllBlank(r) && (s == "" || !IsBlank(s[|s| - 1]))
    ensures StripRight(s + r) == s
  {
    if r == "" {
      assert s + r == s;
    } else {
      var n := |r| - 1;
      assert (s + r)[..|s + r| - 1] == s + r[..n];
      StripRightBlank(s, r[..n]);
    }
  }

  lemma {:induction false} StripLeftAllBlank(s: string)
    requires AllBlank(s)
    ensures StripLeft(s) == ""
  {
    if s != "" {
      StripLeftAllBlank(s[1..]);
    }
  }

  /** A prelude contributes the classes of what stands between its outer white space, and an at-rule contributes none. */
  lemma PreludeExactly(extract: Extract, l: string, p: string, r: string)
    requires AllBlank(l) && AllBlank(r) && !BlankAtEnds(p)
    ensures ClassesOf(extract, l + p + r) == if p != "" && p[0] == '@' then {} else extract(p)
  {
    if p == "" {
      StripLeftAllBlank(l + p + r);
    } else {
      assert l + p + r == l + (p + r);
      StripLeftBlank(l, p + r);
      StripRightBlank(p, r);
    }
  }

  // ----- The scanner -----

  datatype Scan = Scan(depth: int, pending: string, names: set<string>, stopped: bool)

  function Step(extract: Extract, s: Scan, c: char): Scan {
    if s.stopped then s
    else if c == '{' then Scan(s.depth + 1, "", s.names + ClassesOf(extract, s.pending), false)
    else if c == '}' then
      if s.depth == 1 then Scan(0, s.pending, s.names, true) else Scan(s.depth - 1, "", s.names, false)
    else if c == ';' then s.(pending := "")
    else s.(pending := s.pending + [c])
  }

  function Feed(extract: Extract, s: Scan, text: string): Scan {
    if text == "" then s else Step(extract, Feed(extract, s, text[..|text| - 1]), text[|text| - 1])
  }

  /** A layer has just been opened. */
  const OPENED := Scan(1, "", {}, false)

  /** The loop over the characters after a layer's opening brace. */
  method ScanLayer(extract: Extract, css: string, from: nat) returns (names: set<string>)
    requires from <= |css|
    ensures names == Feed(extract, OPENED, css[from..]).names
  {
    var depth, preludeStart := 1, from;
    names := {};
    var i := from;
    while i < |css|
      invariant from <= preludeStart <= i <= |css|
      invariant Feed(extract, OPENED, css[from..i]) == Scan(depth, css[preludeStart..i], names, false)
    {
      FeedNext(extract, css, from, i, depth, preludeStart, names);
      var c := css[i];
      if c == '{' {
        names := names + ClassesOf(extract, css[preludeStart..i]);
        depth := depth + 1;
      } else if c == '}' {
        depth := depth - 1;
        if depth == 0 {
          StopsHere(extract, css, from, i + 1);
          return;
        }
      }
      if c in {'{', '}', ';'} {
        preludeStart := i + 1;
      }
      i := i + 1;
    }
    assert css[from..i] == css[from..];
  }

  /** What one character does to the scan, in terms of the places in the sheet. */
  lemma FeedNext(extract: Extract, css: string, from: nat, i: nat, depth: int, start: nat, names: set<string>)
    requires from <= start <= i < |css| && Feed(extract, OPENED, css[from..i]) == Scan(depth, css[start..i], names, false)
    ensures Feed(extract, OPENED, css[from..i + 1]) ==
            match css[i]
            case '{' => Scan(depth + 1, css[i + 1..i + 1], names + ClassesOf(extract, css[start..i]), false)
            case '}' => if depth == 1 then Scan(0, css[start..i], names, true) else Scan(depth - 1, css[i + 1..i + 1], names, false)
            case ';' => Scan(depth, css[i + 1..i + 1], names, false)
            case _ => Scan(depth, css[start..i + 1], names, false)
  {
    assert css[from..i + 1][..i - from] == css[from..i];
    assert css[start..i + 1] == css[start..i] + [css[i]];
  }

  lemma StopsHere(extract: Extract, css: string, from: nat, n: nat)
    requires from <= n <= |css| && Feed(extract, OPENED, css[from..n]).stopped
    ensures Feed(extract, OPENED, css[from..]) == Feed(extract, OPENED, css[from..n])
  {
    assert css[from..][..n - from] == css[from..n];
    StoppedStays(extract, OPENED, css[from..], n - from);
  }

  lemma {:induction false} StoppedStays(extract: Extract, s: Scan, text: string, n: nat)
    requires n <= |text| && Feed(extract, s, text[..n]).stopped
    ensures Feed(extract, s, text) == Feed(extract, s, text[..n])
  {
    if n == |text| {
      assert text[..n] == text;
    } else {
      var init := text[..|text| - 1];
      assert init[..n] == text[..n];
      StoppedStays(extract, s, init, n);
    }
  }

  lemma {:induction false} FeedAppend(extract: Extract, s: Scan, a: string, b: string)
    ensures Feed(extract, s, a + b) == Feed(extract, Feed(extract, s, a), b)
  {
    if b == "" {
      assert a + b == a;
    } else {
      var init := b[..|b| - 1];
      assert (a + b)[..|a + b| - 1] == a + init;
      FeedAppend(extract, s, a, init);
    }
  }

  lemma {:induction false} FeedPlain(extract: Extract, s: Scan, text: string)
    requires Plain(text) && !s.stopped
    ensures Feed(extract, s, text) == s.(pending := s.pending + text)
  {
    if text == "" {
      assert s.pending + text == s.pending;
    } else {
      var init := text[..|text| - 1];
      FeedPlain(extract, s, init);
      assert s.pending + init + [text[|text| - 1]] == s.pending + text;
    }
  }

  lemma FeedOne(extract: Extract, s: Scan, c: char)
    ensures Feed(extract, s, [c]) == Step(extract, s, c)
  {
    assert [c][..0] == "";
  }

  /** Text and the structural character that ends it, from a fresh prelude. */
  lemma FeedEnded(extract: Extract, s: Scan, text: string, c: char)
    requires Plain(text) && !s.stopped && s.pending == ""
    ensures Feed(extract, s, text + [c]) == Step(extract, s.(pending := text), c)
  {
    FeedAppend(extract, s, text, [c]);
    FeedPlain(extract, s, text);
    assert "" + text == text;
    FeedOne(extract, s.(pending := text), c);
  }

  /** A declaration, then more text. */
  lemma FeedDeclaration(extract: Extract, depth: int, names: set<string>, text: string, tail: string)
    requires Plain(text)
    ensures Feed(extract, Scan(depth, "", names, false), text + ";" + tail) ==
            Feed(extract, Scan(depth, "", names, false), tail)
  {
    FeedAppend(extract, Scan(depth, "", names, false), text + ";", tail);
    FeedEnded(extract, Scan(depth, "", names, false), text, ';');
  }

  /** Text in four parts, fed one after the other. */
  lemma FeedFour(extract: Extract, s: Scan, a: string, b: string, c: string, d: string)
    ensures Feed(extract, s, a + b + c + d) == Feed(extract, Feed(extract, Feed(extract, Feed(extract, s, a), b), c), d)
  {
    FeedAppend(extract, s, a, b);
    FeedAppend(extract, s, a + b, c);
    FeedAppend(extract, s, a + b + c, d);
  }

  lemma FeedOpening(extract: Extract, depth: int, names: set<string>, prelude: string)
    requires Plain(prelude)
    ensures Feed(extract, Scan(depth, "", names, false), prelude + "{") ==
            Scan(depth + 1, "", names + ClassesOf(extract, prelude), false)
  {
    FeedEnded(extract, Scan(depth, "", names, false), prelude, '{');
  }

  lemma FeedClosing(extract: Extract, depth: int, last: string, found: set<string>)
    requires depth >= 1
    ensures Feed(extract, Scan(depth + 1, last, found, false), "}") == Scan(depth, "", found, false)
  {
    FeedOne(extract, Scan(depth + 1, last, found, false), '}');
  }

  /** A rule, then more text, when scanning its body comes back to the depth it started at. */
  lemma FeedRule(extract: Extract, depth: int, names: set<string>, prelude: string, inner: string, tail: string,
                 last: string, found: set<string>)
    requires Plain(prelude) && depth >= 1
    requires Feed(extract, Scan(depth + 1, "", names + ClassesOf(extract, prelude), false), inner) ==
             Scan(depth + 1, last, found, false)
    ensures Feed(extract, Scan(depth, "", names, false), prelude + "{" + inner + "}" + tail) ==
            Feed(extract, Scan(depth, "", found, false), tail)
  {
    FeedOpening(extract, depth, names, prelude);
    FeedClosing(extract, depth, last, found);
    FeedFour(extract, Scan(depth, "", names, false), prelude + "{", inner, "}", tail);
  }

  /** Scanning a printed block adds exactly its classes and comes back to the depth it started at. */
  lemma {:induction false} FeedBlock(extract: Extract, depth: int, names: set<string>, b: Block)
    requires WellFormed(b) && depth >= 1
    ensures Feed(extract, Scan(depth, "", names, false), Print(b)) ==
            Scan(depth, LastText(b), names + Classes(extract, b), false)
    decreases b
  {
    match b
    case End(trailing) =>
      FeedPlain(extract, Scan(depth, "", names, false), trailing);
      assert "" + trailing == trailing;
      assert names + {} == names;
    case Declaration(text, rest) =>
      FeedDeclaration(extract, depth, names, text, Print(rest));
      FeedBlock(extract, depth, names, rest);
    case Rule(prelude, body, rest) =>
      var found := names + ClassesOf(extract, prelude) + Classes(extract, body);
      FeedBlock(extract, depth + 1, names + ClassesOf(extract, prelude), body);
      FeedRule(extract, depth, names, prelude, Print(body), Print(rest), LastText(body), found);
      FeedBlock(extract, depth, found, rest);
      assert found + Classes(extract, rest) == names + Classes(extract, b);
  }

  /** For every tree of rules: scanning the layer it is printed in collects exactly the classes of its rules that are not
      at-rules, at any depth, and nothing of what follows the layer. */
  lemma ScanCollectsClasses(extract: Extract, b: Block, following: string)
    requires WellFormed(b)
    ensures Feed(extract, OPENED, Print(b) + "}" + following).names == Classes(extract, b)
  {
    var s, text := OPENED, Print(b) + "}" + following;
    var n := |Print(b)| + 1;
    assert text[..n] == Print(b) + "}";
    FeedAppend(extract, s, Print(b), "}");
    FeedBlock(extract, 1, {}, b);
    assert {} + Classes(extract, b) == Classes(extract, b);
    FeedOne(extract, Scan(1, LastText(b), Classes(extract, b), false), '}');
    StoppedStays(extract, s, text, n);
  }

  // ----- All layers of a sheet -----

  /** The classes collected from the layers that begin at the given places. */
  function Collected(extract: Extract, css: string, starts: seq<nat>): set<string>
    requires forall i :: 0 <= i < |starts| ==> starts[i] <= |css|
  {
    if starts == [] then {}
    else
      var n := |starts| - 1;
      Collected(extract, css, starts[..n]) + Feed(extract, OPENED, css[starts[n]..]).names
  }

  /** The outer loop; where the layers begin is found by a regular expression and given here. */
  method ComponentClassNames(extract: Extract, css: string, starts: seq<nat>) returns (names: set<string>)
    requires forall i :: 0 <= i < |starts| ==> starts[i] <= |css|
    ensures names == Collected(extract, css, starts)
  {
    names := {};
    for i := 0 to |starts|
      invariant names == Collected(extract, css, starts[..i])
    {
      assert starts[..i + 1][..i] == starts[..i];
      var found := ScanLayer(extract, css, starts[i]);
      names := names + found;
    }
    assert starts[..|starts|] == starts;
  }

  /** The layer that begins at a place holds a printed block. */
  predicate LayerAt(css: string, start: nat, b: Block)
    requires start <= |css|
  {
    WellFormed(b) && Print(b) + "}" <= css[start..]
  }

  function AllClasses(extract: Extract, blocks: seq<Block>): set<string> {
    if blocks == [] then {}
    else AllClasses(extract, blocks[..|blocks| - 1]) + Classes(extract, blocks[|blocks| - 1])
  }

  /** For every sheet whose layers hold printed trees of rules, nested layers included: what is collected is exactly the
      classes of the rules of those trees that are not at-rules, at any depth. */
  lemma {:induction false} SheetCollectsClasses(extract: Extract, css: string, starts: seq<nat>, blocks: seq<Block>)
    requires |blocks| == |starts| && forall i :: 0 <= i < |starts| ==> starts[i] <= |css| && LayerAt(css, starts[i], blocks[i])
    ensures Collected(extract, css, starts) == AllClasses(extract, blocks)
  {
    if starts != [] {
      var n := |starts| - 1;
      SheetCollectsClasses(extract, css, starts[..n], blocks[..n]);
      assert LayerAt(css, starts[n], blocks[n]);
      var rest, printed := css[starts[n]..], Print(blocks[n]) + "}";
      assert rest == printed + rest[|printed|..];
      ScanCollectsClasses(extract, blocks[n], rest[|printed|..]);
    }
  }
}
