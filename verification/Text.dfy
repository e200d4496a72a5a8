/** Prefixes, suffixes and searches on strings. */
module Text {

  /** White space as Unicode defines it. */
  predicate IsSpace(c: char) {
    || '\t' <= c <= '\r' || c == ' ' || c == '\U{0085}' || c == '\U{00A0}' || c == '\U{1680}'
    || '\U{2000}' <= c <= '\U{200A}' || c == '\U{2028}' || c == '\U{2029}' || c == '\U{202F}' || c == '\U{205F}'
    || c == '\U{3000}'
  }

  /** The white space characters one by one. */
  const WHITE_SPACE :=
    "\t\n\U{000B}\U{000C}\r \U{0085}\U{00A0}\U{1680}\U{2000}\U{2001}\U{2002}\U{2003}\U{2004}\U{2005}\U{2006}" +
    "\U{2007}\U{2008}\U{2009}\U{200A}\U{2028}\U{2029}\U{202F}\U{205F}\U{3000}"

  lemma SpaceExactly(c: char)
    ensures IsSpace(c) <==> c in WHITE_SPACE
  {
  }

  predicate HasPrefix(s: string, p: string) {
    p <= s
  }

  predicate HasSuffix(s: string, x: string) {
    |x| <= |s| && s[|s| - |x|..] == x
  }

  function TrimPrefix(s: string, p: string): string {
    if HasPrefix(s, p) then s[|p|..] else s
  }

  function TrimSuffix(s: string, x: string): string {
    if HasSuffix(s, x) then s[..|s| - |x|] else s
  }

  /** Whether sub occurs in s at i. */
  predicate OccursAt(s: string, sub: string, i: nat) {
    i <= |s| && sub <= s[i..]
  }

  predicate Contains(s: string, sub: string) {
    exists i :: 0 <= i <= |s| && OccursAt(s, sub, i)
  }

  predicate Parts(s: string, a: string, sub: string, b: string) {
    s == a + sub + b
  }

  /** A text occurs in another exactly when the other is it with something before and after. */
  lemma ContainsExactly(s: string, sub: string)
    ensures Contains(s, sub) <==> exists a, b :: Parts(s, a, sub, b)
  {
    if i :| 0 <= i <= |s| && OccursAt(s, sub, i) {
      assert s[i..] == sub + s[i + |sub|..];
      assert Parts(s, s[..i], sub, s[i + |sub|..]);
    }
    if a, b :| Parts(s, a, sub, b) {
      assert s[|a|..] == sub + b;
      assert OccursAt(s, sub, |a|);
    }
  }

  /** The first place where sub occurs in s, or one past the length of s. */
  function Find(s: string, sub: string): (i: nat)
    ensures i <= |s| + 1
    ensures i <= |s| ==> OccursAt(s, sub, i)
  {
    if sub <= s then 0
    else if s == "" then 1
    else
      var n := Find(s[1..], sub);
      assert n < |s| ==> s[1..][n..] == s[n + 1..];
      n + 1
  }

  lemma {:induction false} FindIsFirst(s: string, sub: string, j: nat)
    requires OccursAt(s, sub, j)
    ensures Find(s, sub) <= j
  {
    assert s[0..] == s;
    if !(sub <= s) {
      if s != "" {
        assert s[1..][j - 1..] == s[j..];
        FindIsFirst(s[1..], sub, j - 1);
      }
    }
  }

  function Before(s: string, sub: string): string
    requires Find(s, sub) <= |s|
  {
    s[..Find(s, sub)]
  }

  function After(s: string, sub: string): string
    requires Find(s, sub) <= |s|
  {
    s[Find(s, sub)..][|sub|..]
  }

  /** Where the first character of sub comes no earlier, the cut is where it was pasted. */
  lemma CutAt(a: string, sub: string, b: string)
    requires sub != "" && sub[0] !in a
    ensures Find(a + sub + b, sub) == |a|
    ensures Before(a + sub + b, sub) == a && After(a + sub + b, sub) == b
  {
    var s := a + sub + b;
    assert s[|a|..] == sub + b;
    FindIsFirst(s, sub, |a|);
    var n := Find(s, sub);
    assert s[n] == s[n..][0] == sub[0];
    assert forall i :: 0 <= i < |a| ==> s[i] == a[i];
    assert (sub + b)[|sub|..] == b;
  }

  /** Trimming a prefix and then a suffix leaves the middle exactly when both fit side by side. */
  lemma TrimBoth(s: string, p: string, x: string)
    requires HasPrefix(s, p) && HasSuffix(s, x)
    ensures s == p + TrimSuffix(TrimPrefix(s, p), x) + x <==> |s| >= |p| + |x|
  {
    if |s| >= |p| + |x| {
      var rest := s[|p|..];
      assert rest[|rest| - |x|..] == s[|s| - |x|..];
      assert s == p + rest && rest == rest[..|rest| - |x|] + x;
    }
  }

  /** On a text that holds prefix and suffix side by side, what trimming both leaves is what stands between them. */
  lemma BetweenExactly(s: string, p: string, x: string, v: string)
    requires |s| >= |p| + |x|
    ensures HasPrefix(s, p) && HasSuffix(s, x) && TrimSuffix(TrimPrefix(s, p), x) == v <==> s == p + v + x
  {
    if HasPrefix(s, p) && HasSuffix(s, x) {
      TrimBoth(s, p, x);
    }
    if s == p + v + x {
      assert s[|p|..] == v + x;
    }
  }

  /** On a shorter one, trimming the prefix leaves less than the suffix. */
  lemma OverlapExactly(s: string, p: string, x: string, v: string)
    requires |s| < |p| + |x|
    ensures HasPrefix(s, p) && HasSuffix(s, x) && TrimSuffix(TrimPrefix(s, p), x) == v <==>
            s == p + v && |x| <= |s| && s[|s| - |x|..] == x
  {
    if HasPrefix(s, p) {
      assert s == p + s[|p|..];
    }
  }
}
